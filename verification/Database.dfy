/** The database object: reads, writes and background work on the engine state (db/db_impl.cc). */
module Database {
  import opened InternalKeys
  import opened Meaning
  import opened Files
  import opened Versions
  import opened InputSelection
  import opened Runs
  import opened StopRules
  import opened Compactions
  import opened Edits
  import opened Installing
  import opened CompactionMeaning
  import opened Flushing
  import opened Engine
  import opened EngineInvariant

  // ---------- reads ----------

  /** A pinned memtable may have grown since: only by entries newer than the last sequence at that time. */
  ghost predicate Grown(before: seq<Entry>, now: seq<Entry>, last: nat) {
    && (forall e :: e in before ==> e in now)
    && (forall e :: e in now ==> e in before || e.key.sequence > last)
  }

  /** `DBImpl::Get` on the memtables and version it pinned when the state was `st`: first the memtable,
      then the immutable memtable, then the version.  The answer is the last of the first `s` operations
      on the key, whatever has been written, flushed or compacted meanwhile. */
  method GetPinned(mem: seq<Entry>, imm: Option<seq<Entry>>, v: Version, u: UserKey, s: nat, ghost st: State)
    returns (r: Option<Bytes>)
    requires Inv(st) && st.floor <= s <= LastSequence(st)
    requires imm == st.imm && v == st.version
    requires Sorted(mem) && Grown(st.mem, mem, LastSequence(st))
    ensures r == SpecRead(st.history, u, s)
  {
    hide VersionOk, VersionEntries, AllOrdered, JobOk, Functional;
    AuthenticFunctional(Entries(st), Ops(st));
    var e := Lookup(mem, u, s);
    LookupFindsNewest(mem, u, s);
    if e.None? && imm.Some? {
      e := Lookup(imm.value, u, s);
      LookupFindsNewest(imm.value, u, s);
    }
    if e.None? {
      e := Versions.Get(v, u, s);
    }
    assert e.Some? ==> IsNewest(Entries(st), u, s, e.value) by {
      if e.Some? { FirstHitIsNewest(st, mem, u, s, e.value); }
    }
    if e.Some? {
      ReadNewest(Entries(st), u, s, e.value);
      r := Payload(e.value);
    } else {
      NoHitNoEntry(st, mem, u, s);
      r := None;
    }
  }

  lemma FirstHitIsNewest(st: State, mem: seq<Entry>, u: UserKey, s: nat, e: Entry)
    requires Layered(st) && s <= LastSequence(st) && Grown(st.mem, mem, LastSequence(st))
    requires || IsNewest(Contents(mem), u, s, e)
             || ((forall x :: x in mem ==> !Visible(x, u, s)) && IsNewest(ImmEntries(st), u, s, e))
             || ((forall x :: x in mem ==> !Visible(x, u, s)) && (forall x :: x in ImmEntries(st) ==> !Visible(x, u, s))
                 && IsNewest(VersionEntries(st.version), u, s, e))
    ensures IsNewest(Entries(st), u, s, e)
  {
    hide VersionOk, VersionEntries, AllOrdered, Authentic, UpTo, Sorted;
    assert e in Entries(st);
    forall x | x in Entries(st) && Visible(x, u, s) ensures x.key.sequence <= e.key.sequence {
    }
  }

  lemma NoHitNoEntry(st: State, mem: seq<Entry>, u: UserKey, s: nat)
    requires Grown(st.mem, mem, LastSequence(st))
    requires forall x :: x in mem ==> !Visible(x, u, s)
    requires forall x :: x in ImmEntries(st) ==> !Visible(x, u, s)
    requires forall x :: x in VersionEntries(st.version) ==> !Visible(x, u, s)
    ensures Read(Entries(st), u, s) == None
  {
    hide VersionEntries;
    ReadAbsent(Entries(st), u, s);
  }

  /** Until it is switched out, a memtable only gains entries above the last sequence of any earlier state. */
  lemma {:induction false} MemTableGrows(run: seq<State>, steps: seq<Step>, i: nat, j: nat)
    requires IsRun(run, steps) && i <= j < |run|
    requires forall k :: i <= k < j ==> !steps[k].SwitchMemTable?
    ensures Grown(run[i].mem, run[j].mem, LastSequence(run[i]))
    ensures LastSequence(run[i]) <= LastSequence(run[j])
  {
    hide Inv;
    if i < j {
      MemTableGrows(run, steps, i, j - 1);
      RunsKeepInv(run, steps, j - 1);
      StepGrows(run[j - 1], steps[j - 1], run[j]);
    }
  }

  lemma StepGrows(st: State, step: Step, st': State)
    requires Inv(st) && Next(st, step, st') && !step.SwitchMemTable?
    ensures Grown(st.mem, st'.mem, LastSequence(st)) && LastSequence(st) <= LastSequence(st')
  {
    hide Layered, ReadsRight, JobFits, MemInsert, Ready, OutputsOk, Replaced, Applied;
    if step.InsertOne? {
      var g := st.inflight.value;
      var e := EntryOf(g.ops[g.inserted], |st.history| + 1 + g.inserted);
      InsertMembers(st.mem, e);
    }
  }

  lemma InsertMembers(mem: seq<Entry>, e: Entry)
    ensures forall x :: x in MemInsert(mem, e) <==> x in mem || x == e
  {
    hide Seek;
    var i := Seek(mem, e.key);
    assert mem == mem[..i] + mem[i..];
  }

  /** A read that pinned its memtables and version at state `i` and looks into the memtable at any later
      state `j` before that memtable is switched out gets the answer of state `i`. */
  method GetDuringRun(ghost run: seq<State>, ghost steps: seq<Step>, ghost i: nat, ghost j: nat,
                   mem: seq<Entry>, imm: Option<seq<Entry>>, v: Version, u: UserKey, s: nat) returns (r: Option<Bytes>)
    requires IsRun(run, steps) && i <= j < |run|
    requires forall k :: i <= k < j ==> !steps[k].SwitchMemTable?
    requires mem == run[j].mem && imm == run[i].imm && v == run[i].version
    requires s in run[i].snapshots || s == LastSequence(run[i])
    ensures s <= LastSequence(run[i]) && r == SpecRead(run[i].history, u, s)
  {
    RunsKeepInv(run, steps, i);
    RunsKeepInv(run, steps, j);
    MemTableGrows(run, steps, i, j);
    r := GetPinned(mem, imm, v, u, s, run[i]);
  }

  // ---------- the input of a compaction ----------

  /** The children of the input iterator: one per level-0 file, one per other level. */
  function InputRuns(job: Job): seq<seq<Entry>> {
    (if job.level == 0 then EntriesOf(job.in0) else [Concat(EntriesOf(job.in0))]) +
    (if job.in1 == [] then [] else [Concat(EntriesOf(job.in1))])
  }

  lemma NewerDisjoint(f: FileMeta, g: FileMeta)
    requires Newer(f, g)
    ensures DisjointKeys(f.entries, g.entries) && DisjointKeys(g.entries, f.entries)
  {
  }

  /** Which input file an entry of a child comes from. */
  lemma ChildEntry(job: Job, i: nat, e: Entry) returns (l: nat, f: FileMeta)
    requires i < |InputRuns(job)| && e in InputRuns(job)[i]
    ensures IsInput(job, l, f) && e in f.entries
    ensures job.level == 0 && i < |job.in0| ==> l == 0 && f == job.in0[i]
    ensures job.level > 0 ==> l == job.level + i
    ensures job.level == 0 && i >= |job.in0| ==> l == 1 && i == |job.in0|
  {
    hide Concat, EntriesOf;
    var runs := InputRuns(job);
    var n := if job.level == 0 then |job.in0| else 1;
    if i < n {
      l := job.level;
      if job.level == 0 {
        assert runs[i] == EntriesOf(job.in0)[i];
        f := job.in0[i];
      } else {
        assert runs[i] == Concat(EntriesOf(job.in0));
        InConcat(EntriesOf(job.in0), e);
        var k :| 0 <= k < |job.in0| && e in EntriesOf(job.in0)[k];
        f := job.in0[k];
      }
    } else {
      l := job.level + 1;
      assert runs[i] == Concat(EntriesOf(job.in1));
      InConcat(EntriesOf(job.in1), e);
      var k :| 0 <= k < |job.in1| && e in EntriesOf(job.in1)[k];
      f := job.in1[k];
    }
  }

  lemma InputRunsDisjoint(v: Version, job: Job)
    requires VersionOk(v) && JobOk(v, job)
    ensures DisjointRuns(InputRuns(job))
  {
    hide InputRuns, Unshared, LeftOutNewer, VersionEntries, Functional, SortedLevel, ValidFiles, Apart;
    var runs := InputRuns(job);
    forall i, j | 0 <= i < j < |runs| ensures DisjointKeys(runs[i], runs[j]) {
      forall x: Entry, y: Entry | x in runs[i] && y in runs[j] ensures x.key != y.key {
        var l, f := ChildEntry(job, i, x);
        var m, g := ChildEntry(job, j, y);
        assert InLevel(v, l, f) && InLevel(v, m, g);
        if l < m {
          assert SearchedBefore(l, f, m, g);
          NewerDisjoint(f, g);
        } else {
          LevelZeroDisjoint(v, job, i, j, l, m, f, g);
        }
      }
    }
  }

  lemma LevelZeroDisjoint(v: Version, job: Job, i: nat, j: nat, l: nat, m: nat, f: FileMeta, g: FileMeta)
    requires VersionOk(v) && JobOk(v, job) && InLevel(v, l, f) && InLevel(v, m, g)
    requires i < j && !(l < m)
    requires job.level == 0 && i < |job.in0| ==> l == 0 && f == job.in0[i]
    requires job.level == 0 && j < |job.in0| ==> m == 0 && g == job.in0[j]
    requires job.level > 0 ==> l == job.level + i && m == job.level + j
    requires job.level == 0 && i >= |job.in0| ==> l == 1
    requires job.level == 0 && j >= |job.in0| ==> m == 1 && j == |job.in0|
    ensures DisjointKeys(f.entries, g.entries)
  {
    hide Unshared, LeftOutNewer, VersionEntries, Functional, SortedLevel, ValidFiles, Newer;
    assert job.level == 0 && j < |job.in0|;
    assert f != g;
    if f.number > g.number {
      assert SearchedBefore(l, f, m, g);
      NewerDisjoint(f, g);
    } else {
      assert f.number != g.number;
      assert SearchedBefore(m, g, l, f);
      NewerDisjoint(g, f);
    }
  }

  /** The merged input of a job: sorted, and exactly the entries of its input files. */
  lemma MergedInput(v: Version, job: Job)
    requires VersionOk(v) && JobOk(v, job)
    ensures Sorted(MergeAll(InputRuns(job)))
    ensures Contents(MergeAll(InputRuns(job))) == InputEntries(job)
  {
    hide Unshared, LeftOutNewer, VersionEntries, Functional, LevelOrder, UniqueNumbers, MergeAll, DisjointRuns, Concat;
    hide Sorted, ValidFile;
    InputRunsDisjoint(v, job);
    var runs := InputRuns(job);
    forall i | 0 <= i < |runs| ensures Sorted(runs[i]) {
      InputRunSorted(v, job, i);
    }
    MergeAllSorted(runs);
    forall e ensures e in MergeAll(runs) <==> e in InputEntries(job) {
      if i :| 0 <= i < |runs| && e in runs[i] {
        var l, f := ChildEntry(job, i, e);
        assert f in job.in0 + job.in1;
      }
      if e in InputEntries(job) {
        var f :| f in job.in0 + job.in1 && e in f.entries;
        var i := ChildOf(job, f, e);
        assert e in runs[i];
      }
    }
  }

  lemma InputRunSorted(v: Version, job: Job, i: nat)
    requires VersionOk(v) && JobOk(v, job) && i < |InputRuns(job)|
    ensures Sorted(InputRuns(job)[i])
  {
    hide Unshared, LeftOutNewer, VersionEntries, Functional, LevelOrder, UniqueNumbers, Concat, Sorted;
    assert ValidFiles(job.in0) && ValidFiles(job.in1);
    if job.level == 0 && i < |job.in0| {
      assert InputRuns(job)[i] == job.in0[i].entries;
      assert ValidFile(job.in0[i]);
    } else if job.level > 0 && i == 0 {
      assert InputRuns(job)[i] == Concat(EntriesOf(job.in0));
      ConcatSortedLevel(job.in0);
    } else {
      assert InputRuns(job)[i] == Concat(EntriesOf(job.in1));
      ConcatSortedLevel(job.in1);
    }
  }

  lemma ChildOf(job: Job, f: FileMeta, e: Entry) returns (i: nat)
    requires f in job.in0 + job.in1 && e in f.entries
    ensures i < |InputRuns(job)| && e in InputRuns(job)[i]
  {
    hide Concat;
    if f in job.in0 {
      var k :| 0 <= k < |job.in0| && job.in0[k] == f;
      assert e in EntriesOf(job.in0)[k];
      i := if job.level == 0 then k else 0;
      InConcat(EntriesOf(job.in0), e);
      assert InputRuns(job)[i] == if job.level == 0 then EntriesOf(job.in0)[k] else Concat(EntriesOf(job.in0));
    } else {
      var k :| 0 <= k < |job.in1| && job.in1[k] == f;
      assert e in EntriesOf(job.in1)[k];
      i := if job.level == 0 then |job.in0| else 1;
      InConcat(EntriesOf(job.in1), e);
      assert InputRuns(job)[i] == Concat(EntriesOf(job.in1));
    }
  }

  // ---------- output files ----------

  /** The metadata names the first and the last key of the entries. */
  ghost predicate Spans(f: FileMeta) {
    f.entries != [] && f.smallest == f.entries[0].key && f.largest == f.entries[|f.entries| - 1].key
  }

  /** Metadata for the output runs: consecutive numbers, first and last key. */
  method BuildOutputs(runs: seq<seq<Entry>>, nextFile: nat, sizes: nat -> nat) returns (files: seq<FileMeta>)
    requires forall o :: o in runs ==> o != []
    ensures EntriesOf(files) == runs && |files| == |runs|
    ensures forall i :: 0 <= i < |files| ==> files[i].number == nextFile + i && files[i].size == sizes(i)
    ensures forall f :: f in files ==> Spans(f)
  {
    files := [];
    for i := 0 to |runs|
      invariant |files| == i
      invariant forall k :: 0 <= k < i ==> files[k].entries == runs[k] && files[k].number == nextFile + k
      invariant forall k :: 0 <= k < i ==> files[k].size == sizes(k)
      invariant forall f :: f in files ==> Spans(f)
    {
      var o := runs[i];
      assert o in runs;
      files := files + [FileMeta(nextFile + i, sizes(i), o[0].key, o[|o| - 1].key, o)];
    }
    assert EntriesOf(files) == runs;
  }

  /** Consecutive pieces of a sorted run are the files of a sorted level. */
  lemma {:induction false} CutSorted(files: seq<FileMeta>)
    requires Sorted(Concat(EntriesOf(files))) && Bounded(Concat(EntriesOf(files)), MAX_SEQUENCE)
    requires forall f :: f in files ==> Spans(f)
    ensures ValidFiles(files) && SortedLevel(files)
  {
    hide Less, Sorted, Bounded, ValidFile, Spans;
    if files != [] {
      var f, rest := files[0], Concat(EntriesOf(files[1..]));
      assert f in files;
      assert EntriesOf(files)[1..] == EntriesOf(files[1..]);
      assert Concat(EntriesOf(files)) == f.entries + rest;
      SortedParts(f.entries, rest);
      FirstPieceValid(f);
      CutSorted(files[1..]);
      forall g | g in files[1..] ensures Less(f.largest, g.smallest) {
        var k :| 0 <= k < |files[1..]| && files[1..][k] == g;
        PieceAfter(f, files[1..], k);
      }
    }
  }

  lemma SortedParts(a: seq<Entry>, b: seq<Entry>)
    requires Sorted(a + b) && Bounded(a + b, MAX_SEQUENCE)
    ensures Sorted(a) && Sorted(b) && Bounded(a, MAX_SEQUENCE) && Bounded(b, MAX_SEQUENCE)
    ensures forall x, y :: x in a && y in b ==> Less(x.key, y.key)
  {
    hide Less;
    var c := a + b;
    forall i, j | 0 <= i < j < |a| ensures Less(a[i].key, a[j].key) {
      assert c[i] == a[i] && c[j] == a[j];
    }
    forall i, j | 0 <= i < j < |b| ensures Less(b[i].key, b[j].key) {
      assert c[|a| + i] == b[i] && c[|a| + j] == b[j];
    }
    forall x, y | x in a && y in b ensures Less(x.key, y.key) {
      var i :| 0 <= i < |a| && a[i] == x;
      var j :| 0 <= j < |b| && b[j] == y;
      assert c[i] == x && c[|a| + j] == y;
    }
    assert forall x :: x in a || x in b ==> x in c;
  }

  lemma FirstPieceValid(f: FileMeta)
    requires Spans(f) && Sorted(f.entries) && Bounded(f.entries, MAX_SEQUENCE)
    ensures ValidFile(f)
  {
  }

  lemma PieceAfter(f: FileMeta, files: seq<FileMeta>, k: nat)
    requires Spans(f) && k < |files| && Spans(files[k])
    requires forall x, y :: x in f.entries && y in Concat(EntriesOf(files)) ==> Less(x.key, y.key)
    ensures Less(f.largest, files[k].smallest)
  {
    hide Less, Concat;
    assert files[k].entries[0] in EntriesOf(files)[k];
    InConcat(EntriesOf(files), files[k].entries[0]);
  }

  lemma OutputEntrySet(files: seq<FileMeta>, runs: seq<seq<Entry>>)
    requires EntriesOf(files) == runs
    ensures EntrySet(files) == Contents(Concat(runs))
  {
    hide Concat;
    forall e ensures e in EntrySet(files) <==> e in Concat(runs) {
      InConcat(runs, e);
      if e in EntrySet(files) {
        var f :| f in files && e in f.entries;
        var i :| 0 <= i < |files| && files[i] == f;
        assert e in runs[i];
      }
    }
  }

  // ---------- side conditions of the background steps ----------

  function UsersOf(f: FileMeta): Range {
    Range(Some(f.smallest.user), Some(f.largest.user))
  }

  lemma FlushedFileValid(st: State, f: FileMeta)
    requires Layered(st) && st.imm.Some? && f.entries == st.imm.value && Spans(f)
    ensures ValidFile(f)
  {
    hide VersionOk, VersionEntries, AllOrdered, AllNewer, Authentic, Sorted;
    forall e | e in f.entries ensures e.key.sequence <= MAX_SEQUENCE {
      assert e in ImmEntries(st) + VersionEntries(st.version);
    }
  }

  lemma VersionSound(st: State)
    requires Inv(st)
    ensures VersionOk(st.version) && AllOrdered(st.version) && |st.version| == NUM_LEVELS
    ensures forall l :: 0 <= l < NUM_LEVELS ==> ValidFiles(st.version[l])
  {
    assert VersionOk(st.version) ==>
        |st.version| == NUM_LEVELS && forall l :: 0 <= l < NUM_LEVELS ==> ValidFiles(st.version[l]);
    hide VersionOk, AllOrdered, JobFits, ReadsRight, AllNewer, Authentic, Sorted, UpTo;
  }

  lemma NothingFlushed(st: State, st': State)
    requires Inv(st) && st.imm == Some([]) && st' == st.(imm := None)
    ensures Next(st, FlushNothing, st') && Inv(st')
  {
    hide Inv;
    StepKeepsInv(st, FlushNothing, st');
  }

  lemma FlushIsStep(st: State, level: nat, f: FileMeta, st': State)
    requires Inv(st) && st.imm.Some? && f.entries == st.imm.value && Spans(f) && f.number == st.nextFile
    requires level <= MAX_MEM_COMPACT_LEVEL && PlacedClear(st.version, level, f)
    requires Added(st.version, level, f, st'.version)
    requires st' == st.(imm := None, version := st'.version, nextFile := st.nextFile + 1)
    ensures Next(st, Flush(level, f), st') && Inv(st')
  {
    FlushedFileValid(st, f);
    hide Inv, Added, PlacedClear, ValidFile;
    StepKeepsInv(st, Flush(level, f), st');
  }

  lemma FreshFlush(st: State, level: nat, f: FileMeta)
    requires Inv(st) && f.number == st.nextFile && level <= MAX_MEM_COMPACT_LEVEL
    requires level > 0 ==> forall l: nat, g :: l <= level && InLevel(st.version, l, g) ==>
               g.largest.user < f.smallest.user || f.largest.user < g.smallest.user
    ensures Fresh(st.version, FlushEdit(level, f)) && PlacedClear(st.version, level, f)
  {
    hide VersionOk, VersionEntries, AllOrdered, AllNewer, Authentic, Sorted, UpTo;
    var edit := FlushEdit(level, f);
    forall l: nat, x ensures AddsAt(edit, l, x) <==> l == level && x == f {
    }
    forall l: nat, x, g | 0 <= l < |st.version| && AddsAt(edit, l, x) && g in st.version[l]
      ensures x.number != g.number
    {
      assert InLevel(st.version, l, g);
    }
  }

  lemma InputFunctional(st: State)
    requires Inv(st) && st.job.Some?
    ensures Functional(InputEntries(st.job.value)) && st.job.value.smallest < MAX_SEQUENCE
    ensures UpTo(InputEntries(st.job.value), MAX_SEQUENCE)
  {
    hide VersionOk, VersionEntries, AllOrdered, AllNewer, Authentic, Sorted, JobOk, Functional, InputEntries;
    AuthenticFunctional(Entries(st), Ops(st));
    EntriesBefore(st.version, st.job.value);
    FunctionalSubset(InputEntries(st.job.value), Entries(st));
  }

  /** The numbered outputs of the loop are what the install step expects. */
  lemma FinishedOutputs(st: State, input: seq<Entry>, runs: seq<seq<Entry>>, files: seq<FileMeta>)
    requires Inv(st) && st.job.Some?
    requires Sorted(input) && Contents(input) == InputEntries(st.job.value)
    requires Concat(runs)
          == Kept(input, |input|, st.job.value.smallest, BaseKeys(st.job.value.inputVersion, st.job.value.level))
    requires EntriesOf(files) == runs && (forall f :: f in files ==> Spans(f))
    requires forall i :: 0 <= i < |files| ==> files[i].number == st.nextFile + i
    ensures OutputsOk(st.version, st.job.value, files)
    ensures forall f :: f in files ==> st.nextFile <= f.number < st.nextFile + |files|
  {
    hide VersionOk, VersionEntries, AllOrdered, AllNewer, Authentic, JobOk, InputEntries, ValidFiles, SortedLevel;
    hide Concat, Kept, Sorted, EntrySet, Spans, ReadsRight, Survives;
    var job := st.job.value;
    var base := BaseKeys(job.inputVersion, job.level);
    var kept := Kept(input, |input|, job.smallest, base);
    KeptSorted(input, |input|, job.smallest, base);
    KeptAre(input, |input|, job.smallest, base);
    assert input[..|input|] == input;
    InputFunctional(st);
    assert Bounded(kept, MAX_SEQUENCE) by {
      forall e | e in kept ensures e.key.sequence <= MAX_SEQUENCE {
        assert e in Contents(input);
      }
    }
    CutSorted(files);
    OutputEntrySet(files, runs);
    assert EntrySet(files) == Survivors(InputEntries(job), job.smallest, base) by {
      forall e ensures e in EntrySet(files) <==> e in Survivors(InputEntries(job), job.smallest, base) {
        assert e in Contents(kept) <==> e in Contents(input) && Survives(Contents(input), job.smallest, base, e);
      }
    }
    NumbersInRange(files, st.nextFile);
    forall o, l, f | o in files && InLevel(st.version, l, f) ensures o.number != f.number {
    }
  }

  lemma NumbersInRange(files: seq<FileMeta>, first: nat)
    requires forall i :: 0 <= i < |files| ==> files[i].number == first + i
    ensures forall f :: f in files ==> first <= f.number < first + |files|
    ensures forall f, g :: f in files && g in files && f.number == g.number ==> f == g
  {
    forall f, g | f in files && g in files && f.number == g.number ensures f == g {
      var i :| 0 <= i < |files| && files[i] == f;
      var j :| 0 <= j < |files| && files[j] == g;
    }
  }

  lemma FreshOutputs(v: Version, job: Job, files: seq<FileMeta>)
    requires OutputsOk(v, job, files) && |v| == NUM_LEVELS && job.level + 1 < NUM_LEVELS
    ensures Fresh(v, CompactionEdit(job, files))
  {
    hide EntrySet, InputEntries, ValidFiles, SortedLevel, Survivors;
    var edit := CompactionEdit(job, files);
    forall l: nat, x ensures AddsAt(edit, l, x) <==> l == job.level + 1 && x in files {
      EditAdds(job, files, l, x);
    }
    forall l: nat, x, g | 0 <= l < |v| && AddsAt(edit, l, x) && g in v[l] ensures x.number != g.number {
      assert InLevel(v, l, g);
    }
    forall p | p in edit.added ensures p.0 < NUM_LEVELS {
      var i :| 0 <= i < |edit.added| && edit.added[i] == p;
    }
  }

  /** The key range of all inputs, by which the overlap with the grandparent level is measured. */
  method HullOfInputs(v: Version, level: nat, in0: seq<FileMeta>, in1: seq<FileMeta>, ghost hull: Range)
    returns (all: Range)
    requires VersionOk(v) && Ready(v, level, in0, in1, hull)
    ensures IsHull(in0 + in1, all)
  {
    hide VersionEntries, Functional, LevelOrder, UniqueNumbers, LeftOutNewer, ValidFile;
    assert ValidFiles(in0 + in1) by {
      forall f | f in in0 + in1 ensures ValidFile(f) {
        assert f in in0 || f in in1;
      }
    }
    all := HullOf(in0 + in1);
  }

  lemma StartIsStep(st: State, level: nat, in0: seq<FileMeta>, in1: seq<FileMeta>, hull: Range, st': State)
    requires Inv(st) && st.job.None? && Ready(st.version, level, in0, in1, hull)
    requires st' == st.(job := Some(Job(level, in0, in1, st.version, SmallestSnapshot(st))))
    ensures Next(st, Step.StartCompaction(level, in0, in1, hull), st') && Inv(st')
  {
    hide Inv, Ready, SmallestSnapshot;
    StepKeepsInv(st, Step.StartCompaction(level, in0, in1, hull), st');
  }

  /** The inputs a background compaction from a picked file starts with. */
  ghost predicate PicksFor(v: Version, level: nat, picked: FileMeta, byteLimit: nat, in0: seq<FileMeta>,
                           in1: seq<FileMeta>) {
    && |v| == NUM_LEVELS && level + 1 < NUM_LEVELS && picked in in0
    && exists chosen :: StartsFrom(level, v[level], picked, chosen)
                        && CompletedTo(v, level, chosen, byteLimit, in0, in1)
  }

  /** The inputs a compaction of a range starts with. */
  ghost predicate RangeFor(v: Version, level: nat, range: Range, fileLimit: nat, byteLimit: nat, in0: seq<FileMeta>,
                           in1: seq<FileMeta>) {
    && |v| == NUM_LEVELS && level + 1 < NUM_LEVELS
    && exists chosen :: CutToLimit(level, v[level], range, fileLimit, chosen)
                        && CompletedTo(v, level, chosen, byteLimit, in0, in1)
  }

  /** The level and the input files of a compaction or a move. */
  ghost function InputsOf(step: Step): (nat, seq<FileMeta>, seq<FileMeta>)
    requires step.StartCompaction? || step.TrivialMove?
  {
    match step
    case StartCompaction(level, in0, in1, _) => (level, in0, in1)
    case TrivialMove(from, moved, _) => (from, [moved], [])
  }

  /** A file may move down alone: little enough two levels below overlaps it. */
  ghost predicate FitsBelow(v: Version, level: nat, f: FileMeta, maxOverlap: nat) {
    level + 2 < |v| ==> TotalFileSize(Selected(v[level + 2], UsersOf(f))) <= maxOverlap
  }

  lemma HullOfOne(files: seq<FileMeta>, f: FileMeta, all: Range)
    requires f in files && |files| == 1 && IsHull(files, all)
    ensures all == UsersOf(f)
  {
  }

  lemma MoveIsFresh(st: State, level: nat, f: FileMeta, hull: Range)
    requires Inv(st) && Ready(st.version, level, [f], [], hull)
    ensures AllOrdered(st.version) && Fresh(st.version, CompactionEdit(Job(level, [f], [], st.version, 0), [f]))
  {
    hide VersionEntries, Functional, LevelOrder, LeftOutNewer, ValidFiles, SortedLevel, AllOrdered, ReadsRight;
    hide AllNewer, Authentic, JobFits, Selected, IsHull;
    var job := Job(level, [f], [], st.version, 0);
    var edit := CompactionEdit(job, [f]);
    assert InLevel(st.version, level, f) by { assert f in [f]; }
    forall l: nat, x ensures AddsAt(edit, l, x) <==> l == level + 1 && x == f {
      EditAdds(job, [f], l, x);
    }
    forall l: nat, x, g | 0 <= l < |st.version| && AddsAt(edit, l, x) && g in st.version[l]
      ensures x.number != g.number
    {
      assert InLevel(st.version, l, g);
    }
  }

  lemma JobSound(st: State)
    requires Inv(st) && st.job.Some?
    ensures VersionOk(st.version) && AllOrdered(st.version) && JobOk(st.version, st.job.value)
    ensures VersionOk(st.job.value.inputVersion) && |st.version| == NUM_LEVELS && st.job.value.level + 1 < NUM_LEVELS
    ensures |st.job.value.inputVersion| == NUM_LEVELS
  {
    assert VersionOk(st.job.value.inputVersion) ==> |st.job.value.inputVersion| == NUM_LEVELS;
    hide VersionOk, AllOrdered, LeftOutNewer, SortedLevel, Unshared, ReadsRight, AllNewer, Authentic;
  }

  lemma FinishIsStep(st: State, files: seq<FileMeta>, st': State)
    requires Inv(st) && st.job.Some? && NoResurrection(st) && OutputsClear(st.version, st.job.value, files)
    requires OutputsOk(st.version, st.job.value, files) && Replaced(st.version, st.job.value, files, st'.version)
    requires forall f :: f in files ==> st.nextFile <= f.number < st.nextFile + |files|
    requires st' == st.(version := st'.version, nextFile := st.nextFile + |files|, job := None,
                        floor := if st.floor < st.job.value.smallest then st.job.value.smallest else st.floor)
    ensures Next(st, Step.FinishCompaction(files), st') && Inv(st')
  {
    hide Inv, OutputsOk, Replaced, NoResurrection, OutputsClear;
    StepKeepsInv(st, Step.FinishCompaction(files), st');
  }

  lemma OutputsAreFit(v: Version, job: Job, files: seq<FileMeta>)
    requires OutputsOk(v, job, files)
    ensures OutputsFit(v, job, files)
  {
    hide OutputsFit;
  }

  /** The files two levels below the inputs that overlap them, as of when the job was set up. */
  ghost predicate AreGrandparents(job: Job, files: seq<FileMeta>)
    requires |job.inputVersion| == NUM_LEVELS
  {
    if job.level + 2 < NUM_LEVELS && job.in0 + job.in1 != [] then
      exists lo, hi :: && IsSmallestKey(job.in0 + job.in1, lo) && IsLargestKey(job.in0 + job.in1, hi)
                       && files == Selected(job.inputVersion[job.level + 2], Range(Some(lo.user), Some(hi.user)))
    else files == []
  }

  method Grandparents(job: Job) returns (files: seq<FileMeta>)
    requires VersionOk(job.inputVersion) && job.level + 1 < NUM_LEVELS
    ensures AreGrandparents(job, files) && ValidFiles(files) && SortedLevel(files)
  {
    hide LevelOrder, UniqueNumbers, Functional, SortedLevel, ValidFile, IsSmallestKey, IsLargestKey, LeastClosed;
    files := [];
    if job.level + 2 < NUM_LEVELS && job.in0 + job.in1 != [] {
      var lo, hi := GetRange(job.in0 + job.in1);
      ghost var r;
      files, r := GetOverlappingInputs(false, job.inputVersion[job.level + 2], Range(Some(lo.user), Some(hi.user)));
      SelectedSorted(job.inputVersion[job.level + 2], r);
    } else {
      NothingSorted();
    }
  }

  lemma NothingSorted()
    ensures SortedLevel([])
  {
  }

  /** An output made from the inputs overlaps no more of the level two below them than of the grandparents. */
  lemma GrandparentsSuffice(job: Job, grandparents: seq<FileMeta>, o: seq<Entry>, maxOverlap: nat)
    requires VersionOk(job.inputVersion) && ValidFiles(job.in0) && ValidFiles(job.in1)
    requires AreGrandparents(job, grandparents) && LittleOverlap(o, grandparents, maxOverlap)
    requires job.level + 2 < NUM_LEVELS && forall e :: e in o ==> e in InputEntries(job)
    ensures LittleOverlap(o, job.inputVersion[job.level + 2], maxOverlap)
  {
    hide LevelOrder, UniqueNumbers, Functional, SortedLevel, StraddledBytes, ValidFile, Selected, ValidFiles;
    hide IsSmallestKey, IsLargestKey, EntrySet;
    if o != [] {
      var all, level := job.in0 + job.in1, job.inputVersion[job.level + 2];
      assert o[0] in InputEntries(job);
      InputsValid(job);
      var lo, hi :| && IsSmallestKey(all, lo) && IsLargestKey(all, hi)
                    && grandparents == Selected(level, Range(Some(lo.user), Some(hi.user)));
      SelectedSuffice(all, level, Range(Some(lo.user), Some(hi.user)), lo, hi, o);
    }
  }

  lemma InputsValid(job: Job)
    requires ValidFiles(job.in0) && ValidFiles(job.in1)
    ensures ValidFiles(job.in0 + job.in1) && (forall e :: e in InputEntries(job) ==> job.in0 + job.in1 != [])
  {
  }

  lemma SelectedSuffice(all: seq<FileMeta>, level: seq<FileMeta>, r: Range, lo: InternalKey, hi: InternalKey,
                        o: seq<Entry>)
    requires ValidFiles(all) && ValidFiles(level) && IsSmallestKey(all, lo) && IsLargestKey(all, hi)
    requires r == Range(Some(lo.user), Some(hi.user)) && o != [] && forall e :: e in o ==> e in EntrySet(all)
    ensures StraddledBytes(Selected(level, r), o[0].key, o[|o| - 1].key)
         == StraddledBytes(level, o[0].key, o[|o| - 1].key)
  {
    hide LessEq, StraddledBytes, ValidFile, Selected;
    assert o[0] in EntrySet(all) && o[|o| - 1] in EntrySet(all);
    var f :| f in all && o[0] in f.entries;
    var g :| g in all && o[|o| - 1] in g.entries;
    WithinUsers(f, o[0], lo);
    WithinUsers(g, o[|o| - 1], hi);
    StraddledAreSelected(level, r, o[0].key, o[|o| - 1].key);
  }

  lemma WithinUsers(f: FileMeta, e: Entry, k: InternalKey)
    requires ValidFile(f) && e in f.entries
    ensures LessEq(k, f.smallest) ==> k.user <= e.key.user
    ensures LessEq(f.largest, k) ==> e.key.user <= k.user
  {
    EntryInRange(f, e);
  }

  /** A file that the compaction loop may write: no longer than its size limit makes it, and not over too much of the
      level below it. */
  ghost predicate WithinLimits(job: Job, f: FileMeta, limits: Limits)
    requires |job.inputVersion| == NUM_LEVELS
  {
    && NotTooLong(f.entries, limits)
    && (job.level + 2 < NUM_LEVELS ==>
          LittleOverlap(f.entries, job.inputVersion[job.level + 2], limits.maxOverlap))
  }

  /** The outputs go on over no stop, and each ends because it is full or because of a stop behind it. */
  ghost predicate CutWhereNeeded(job: Job, files: seq<FileMeta>, limits: Limits)
    requires |job.inputVersion| == NUM_LEVELS
  {
    && Sorted(MergeAll(InputRuns(job)))
    && exists grandparents ::
         && AreGrandparents(job, grandparents)
         && var stops := StopKeys(MergeAll(InputRuns(job)), grandparents, limits.maxOverlap);
            && (forall f :: f in files ==> GoesOn(f.entries, stops))
            && forall i :: 0 < i < |files| ==> CutBetween(files[i - 1].entries, files[i].entries, stops, limits)
  }

  lemma CutsOfFiles(job: Job, grandparents: seq<FileMeta>, runs: seq<seq<Entry>>, files: seq<FileMeta>, limits: Limits)
    requires |job.inputVersion| == NUM_LEVELS && Sorted(MergeAll(InputRuns(job))) && AreGrandparents(job, grandparents)
    requires var stops := StopKeys(MergeAll(InputRuns(job)), grandparents, limits.maxOverlap);
             && (forall o :: o in runs ==> GoesOn(o, stops))
             && forall k :: 0 < k < |runs| ==> CutBetween(runs[k - 1], runs[k], stops, limits)
    requires EntriesOf(files) == runs
    ensures CutWhereNeeded(job, files, limits)
  {
    hide Sorted, MergeAll, InputRuns, AreGrandparents, StopKeys, GoesOn, CutBetween;
    var stops := StopKeys(MergeAll(InputRuns(job)), grandparents, limits.maxOverlap);
    forall f | f in files ensures GoesOn(f.entries, stops) {
      var i :| 0 <= i < |files| && files[i] == f;
      assert runs[i] == f.entries;
    }
    forall i | 0 < i < |files| ensures CutBetween(files[i - 1].entries, files[i].entries, stops, limits) {
      assert runs[i - 1] == files[i - 1].entries && runs[i] == files[i].entries;
    }
  }

  lemma OutputsWithinLimits(v: Version, job: Job, grandparents: seq<FileMeta>, files: seq<FileMeta>, limits: Limits)
    requires VersionOk(v) && JobOk(v, job) && OutputsOk(v, job, files) && AreGrandparents(job, grandparents)
    requires forall o :: o in EntriesOf(files) ==>
               NotTooLong(o, limits) && LittleOverlap(o, grandparents, limits.maxOverlap)
    ensures forall f :: f in files ==> WithinLimits(job, f, limits)
  {
    hide LevelOrder, UniqueNumbers, Functional, SortedLevel, LeftOutNewer, Apart, Unshared, OutputsFit, BaseKeys;
    hide Distinct, NotTooLong, LittleOverlap, AreGrandparents, ValidFile, Survives, InputEntries;
    forall f | f in files ensures WithinLimits(job, f, limits) {
      var i :| 0 <= i < |files| && files[i] == f;
      assert f.entries == EntriesOf(files)[i];
      assert forall e :: e in f.entries ==> e in EntrySet(files);
      if job.level + 2 < NUM_LEVELS {
        GrandparentsSuffice(job, grandparents, f.entries, limits.maxOverlap);
      }
    }
  }

  // ---------- the object ----------

  /** The database object; each method performs one or more steps of the engine. */
  class DBImpl {
    var mem: seq<Entry>
    var imm: Option<seq<Entry>>
    var version: Version
    var nextFile: nat
    var lastSequence: nat
    var snapshots: seq<nat>
    var job: Option<Job>
    ghost var history: seq<Op>
    ghost var floor: nat

    /** The engine state between writes. */
    ghost function St(): State
      reads this
    {
      State(history, floor, mem, imm, version, nextFile, snapshots, None, job)
    }

    ghost predicate Valid()
      reads this
    {
      Inv(St()) && lastSequence == |history|
    }

    constructor ()
      ensures Valid() && St() == EMPTY
    {
      mem, imm, version, nextFile, lastSequence, snapshots, job := [], None, NO_FILES, 1, 0, [], None;
      history, floor := [], 0;
      new;
      InitInv();
    }

    /** A write of a group of operations: inserted one by one, then published together. */
    method Write(ops: seq<Op>)
      requires Valid() && |history| + |ops| < MAX_SEQUENCE
      modifies this
      ensures Valid()
      ensures St() == old(St()).(history := old(history) + ops, mem := mem)
    {
      hide Inv, MemInsert;
      ghost var cur := St().(inflight := Some(Group(ops, 0)));
      StepKeepsInv(St(), BeginWrite(ops), cur);
      for i := 0 to |ops|
        invariant cur == old(St()).(mem := mem, inflight := Some(Group(ops, i))) && Inv(cur)
        invariant St() == old(St()).(mem := mem) && lastSequence == |history|
      {
        ghost var before := cur;
        mem := MemInsert(mem, EntryOf(ops[i], lastSequence + 1 + i));
        cur := cur.(mem := mem, inflight := Some(Group(ops, i + 1)));
        StepKeepsInv(before, InsertOne, cur);
      }
      lastSequence := lastSequence + |ops|;
      history := history + ops;
      StepKeepsInv(cur, Publish, St());
    }

    /** A full memtable becomes the immutable one, unless the previous is still being flushed. */
    method SwitchMemTable() returns (switched: bool)
      requires Valid()
      modifies this`mem, this`imm, this`nextFile
      ensures Valid() && switched == old(imm).None?
      ensures if switched then Next(old(St()), Step.SwitchMemTable, St()) else St() == old(St())
    {
      switched := imm.None?;
      if switched {
        nextFile := nextFile + 1;
        imm := Some(mem);
        mem := [];
        StepKeepsInv(old(St()), Step.SwitchMemTable, St());
      }
    }

    /** Flushes the immutable memtable to a table as deep as it may go. */
    method CompactMemTable(size: nat, maxOverlap: nat) returns (ghost step: Step)
      requires Valid() && imm.Some?
      modifies this`imm, this`version, this`nextFile
      ensures Valid() && Next(old(St()), step, St())
      ensures if old(imm) == Some([]) then step == FlushNothing else
                && step.Flush? && step.file.entries == old(imm).value && step.file.size == size
                && old(|version|) == NUM_LEVELS
                && PlacedByRule(old(version), UsersOf(step.file), step.level, maxOverlap)
    {
      hide Inv, VersionOk, AllOrdered, PlacedByRule, Next, Fresh, Applied, Added, PlacedClear;
      var run := imm.value;
      if run == [] {
        step := FlushNothing;
        imm := None;
        NothingFlushed(old(St()), St());
        return;
      }
      VersionSound(St());
      var f := FileMeta(nextFile, size, run[0].key, run[|run| - 1].key, run);
      var level := PickLevelForMemTableOutput(version, f.smallest.user, f.largest.user, maxOverlap);
      PlacedMeetsNone(version, f.smallest.user, f.largest.user, level, maxOverlap);
      FreshFlush(St(), level, f);
      version := LogAndApply(version, FlushEdit(level, f));
      EditAddsFile(old(version), level, f, version);
      imm := None;
      nextFile := nextFile + 1;
      step := Flush(level, f);
      FlushIsStep(old(St()), level, f, St());
    }

    /** Picks a file, completes its compaction inputs, and either moves the file down or starts a job. */
    method StartCompaction(level: nat, picked: FileMeta, byteLimit: nat, maxOverlap: nat) returns (ghost step: Step)
      requires Valid() && job.None? && level + 1 < NUM_LEVELS && picked in version[level]
      modifies this`job, this`version
      ensures Valid() && Next(old(St()), step, St())
      ensures step.StartCompaction? || step.TrivialMove?
      ensures var (from, in0, in1) := InputsOf(step);
              && from == level && PicksFor(old(version), level, picked, byteLimit, in0, in1)
              && (step.TrivialMove? <==>
                   in0 == [picked] && in1 == [] && FitsBelow(old(version), level, picked, maxOverlap))
    {
      hide Inv, VersionOk, AllOrdered, Next, Ready, Pickable, IsHull, Selected, TotalFileSize, StartsFrom, CompletedTo;
      VersionSound(St());
      var chosen := PickCompaction(version, level, picked);
      var in0, in1, hull := SetupOtherInputs(version, level, chosen, byteLimit);
      assert PicksFor(version, level, picked, byteLimit, in0, in1);
      var trivial := |in0| == 1 && |in1| == 0;
      assert trivial <==> in0 == [picked] && in1 == [];
      if trivial && level + 2 < NUM_LEVELS {
        ghost var r;
        var all := HullOfInputs(version, level, in0, in1, hull);
        var grandparents;
        grandparents, r := GetOverlappingInputs(false, version[level + 2], all);
        assert all == UsersOf(picked) by { HullOfOne(in0 + in1, picked, all); }
        trivial := TotalFileSize(grandparents) <= maxOverlap;
      }
      if trivial {
        step := MoveDown(level, in0, in1, hull);
      } else {
        job := Some(Job(level, in0, in1, version, if snapshots == [] then lastSequence else snapshots[0]));
        step := Step.StartCompaction(level, in0, in1, hull);
        StartIsStep(old(St()), level, in0, in1, hull, St());
      }
    }

    /** Moves the only input file to the next level. */
    method MoveDown(level: nat, in0: seq<FileMeta>, in1: seq<FileMeta>, ghost hull: Range) returns (ghost step: Step)
      requires Valid() && job.None? && Ready(version, level, in0, in1, hull) && |in0| == 1 && |in1| == 0
      modifies this`version
      ensures Valid() && step.TrivialMove? && Next(old(St()), step, St())
      ensures step.from == level && step.moved == in0[0]
    {
      hide Inv, VersionOk, AllOrdered, Ready, Fresh, Applied;
      var f := in0[0];
      assert in0 == [f] && in1 == [];
      MoveIsFresh(St(), level, f, hull);
      version := LogAndApply(version, CompactionEdit(Job(level, [f], [], version, 0), [f]));
      step := TrivialMove(level, f, hull);
      StepKeepsInv(old(St()), step, St());
    }

    /** A compaction of everything in a range of user keys, as far as the size limit allows. */
    method StartManualCompaction(level: nat, range: Range, fileLimit: nat, byteLimit: nat)
      returns (done: bool, ghost step: Step)
      requires Valid() && job.None? && level + 1 < NUM_LEVELS
      modifies this`job
      ensures Valid()
      ensures done <==> forall f :: f in version[level] ==> !Overlaps(f, range)
      ensures if done then St() == old(St())
              else && step.StartCompaction? && Next(old(St()), step, St())
                   && step.level == level && RangeFor(version, level, range, fileLimit, byteLimit, step.in0, step.in1)
    {
      hide Inv, VersionOk, AllOrdered, Next, Ready, Pickable, CutToLimit, CompletedTo;
      VersionSound(St());
      var chosen := CompactRange(version, level, range, fileLimit);
      done := chosen == [];
      step := Step.NewFileNumber;
      if !done {
        var in0, in1, hull := SetupOtherInputs(version, level, chosen, byteLimit);
        assert RangeFor(version, level, range, fileLimit, byteLimit, in0, in1);
        job := Some(Job(level, in0, in1, version, if snapshots == [] then lastSequence else snapshots[0]));
        step := Step.StartCompaction(level, in0, in1, hull);
        StartIsStep(old(St()), level, in0, in1, hull, St());
      }
    }

    /** Runs the compaction loop over the merged inputs. */
    method RunCompaction(limits: Limits, sizes: nat -> nat) returns (files: seq<FileMeta>)
      requires Valid() && job.Some?
      ensures OutputsOk(version, job.value, files) && |job.value.inputVersion| == NUM_LEVELS
      ensures forall i :: 0 <= i < |files| ==> files[i].size == sizes(i) && files[i].number == nextFile + i
      ensures forall f :: f in files ==> WithinLimits(job.value, f, limits)
      ensures CutWhereNeeded(job.value, files, limits)
    {
      hide Inv, VersionOk, AllOrdered, JobOk, Sorted, Functional, Kept, Concat, OutputsOk, NotTooLong, CutBetween;
      hide BaseKeys, Contents, EntriesOf, MergeAll, AreGrandparents, WithinLimits, ValidFiles, SortedLevel, GoesOn;
      hide LittleOverlap, StopKeys, CutWhereNeeded, Spans, InputRuns;
      var j := job.value;
      JobSound(St());
      var input := MergeAll(InputRuns(j));
      MergedInput(version, j);
      var grandparents := Grandparents(j);
      var c := new Compaction(j.level, j.inputVersion, grandparents);
      InputFunctional(St());
      var runs := DoCompactionWork(c, input, j.smallest, limits);
      files := BuildOutputs(runs, nextFile, sizes);
      FinishedOutputs(St(), input, runs, files);
      OutputsWithinLimits(version, j, grandparents, files, limits);
      CutsOfFiles(j, grandparents, runs, files, limits);
    }

    /** Runs the compaction loop and installs the outputs.  The level order is kept unless a flush put a file in the way
        of an output, and then reads are kept unless a dropped deletion brings back a value from a split user key. */
    method FinishCompaction(limits: Limits, sizes: nat -> nat) returns (ghost step: Step)
      requires Valid() && job.Some?
      modifies this`job, this`version, this`nextFile, this`floor
      ensures step.FinishCompaction?
      ensures OutputsOk(old(version), old(job).value, step.outputs)
      ensures |old(job).value.inputVersion| == NUM_LEVELS
      ensures forall i :: 0 <= i < |step.outputs| ==> step.outputs[i].size == sizes(i)
      ensures forall f :: f in step.outputs ==> WithinLimits(old(job).value, f, limits)
      ensures CutWhereNeeded(old(job).value, step.outputs, limits)
      ensures VersionOk(version) <==> OutputsClear(old(version), old(job).value, step.outputs)
      ensures NoResurrection(old(St())) && OutputsClear(old(version), old(job).value, step.outputs) ==>
                Next(old(St()), step, St()) && Valid()
    {
      hide Inv, VersionOk, AllOrdered, JobOk, OutputsOk, OutputsFit, Replaced, NoResurrection, OutputsClear, Next;
      hide Fresh, Applied, WithinLimits, CutWhereNeeded;
      var j := job.value;
      JobSound(St());
      var files := RunCompaction(limits, sizes);
      FreshOutputs(version, j, files);
      version := LogAndApply(version, CompactionEdit(j, files));
      EditReplaces(old(version), j, files, version);
      OutputsAreFit(old(version), j, files);
      InstallKeepsOrderIff(old(version), j, files, version);
      nextFile := nextFile + |files|;
      job := None;
      floor := if floor < j.smallest then j.smallest else floor;
      step := Step.FinishCompaction(files);
      if NoResurrection(old(St())) && OutputsClear(old(version), j, files) {
        NumbersInRange(files, old(nextFile));
        FinishIsStep(old(St()), files, St());
      }
    }

    method GetSnapshot() returns (s: nat)
      requires Valid()
      modifies this`snapshots
      ensures Valid() && s == lastSequence && Next(old(St()), TakeSnapshot, St())
    {
      s := lastSequence;
      snapshots := snapshots + [lastSequence];
      StepKeepsInv(old(St()), TakeSnapshot, St());
    }

    method Release(index: nat)
      requires Valid() && index < |snapshots|
      modifies this`snapshots
      ensures Valid() && Next(old(St()), ReleaseSnapshot(index), St())
    {
      snapshots := snapshots[..index] + snapshots[index + 1..];
      StepKeepsInv(old(St()), ReleaseSnapshot(index), St());
    }

    /** Reads at a held snapshot, or at the present. */
    method Get(u: UserKey, snapshot: Option<nat>) returns (r: Option<Bytes>)
      requires Valid() && (snapshot.Some? ==> snapshot.value in snapshots)
      ensures var s := if snapshot.Some? then snapshot.value else |history|;
              s <= |history| && r == SpecRead(history, u, s)
    {
      var s := if snapshot.Some? then snapshot.value else lastSequence;
      r := GetPinned(mem, imm, version, u, s, St());
    }
  }
}
