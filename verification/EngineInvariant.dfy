/** Every step of the engine keeps its invariant, so every run does. */
module EngineInvariant {
  import opened InternalKeys
  import opened Meaning
  import opened Files
  import opened Versions
  import opened InputSelection
  import opened Runs
  import opened Edits
  import opened Installing
  import opened CompactionMeaning
  import opened Flushing
  import opened Engine

  lemma AuthenticFunctional(es: set<Entry>, ops: seq<Op>)
    requires Authentic(es, ops)
    ensures Functional(es)
  {
  }

  // ---------- reads and the history ----------

  lemma ReadSkips(es: set<Entry>, u: UserKey, s: nat)
    requires Functional(es) && s > 0
    requires forall e :: e in es && e.key.user == u ==> e.key.sequence != s
    ensures Read(es, u, s) == Read(es, u, s - 1)
  {
    if w :| w in es && Visible(w, u, s - 1) {
      var n := NewestExists(es, u, s - 1, w);
      assert IsNewest(es, u, s, n) by {
        forall x | x in es && Visible(x, u, s) ensures x.key.sequence <= n.key.sequence {
          assert Visible(x, u, s - 1);
        }
      }
      ReadNewest(es, u, s, n);
      ReadNewest(es, u, s - 1, n);
    } else {
      forall x | x in es ensures !Visible(x, u, s) {
        assert !Visible(x, u, s - 1);
      }
      ReadAbsent(es, u, s);
      ReadAbsent(es, u, s - 1);
    }
  }

  ghost predicate Present(es: set<Entry>, ops: seq<Op>, n: nat) {
    1 <= n <= |ops| && EntryOf(ops[n - 1], n) in es
  }

  lemma LastWriteIsNewest(es: set<Entry>, ops: seq<Op>, u: UserKey, s: nat)
    requires Functional(es) && Present(es, ops, s) && ops[s - 1].user == u
    ensures Read(es, u, s) == SpecRead(ops, u, s)
  {
    var e := EntryOf(ops[s - 1], s);
    assert IsNewest(es, u, s, e);
    ReadNewest(es, u, s, e);
  }

  /** If all operations after `from` are present, reads after `from` follow the history. */
  lemma {:induction false} ReadsFollow(es: set<Entry>, ops: seq<Op>, from: nat, u: UserKey, s: nat)
    requires Authentic(es, ops) && from <= s <= |ops|
    requires forall n :: from < n <= s ==> Present(es, ops, n)
    requires Read(es, u, from) == SpecRead(ops, u, from)
    ensures Read(es, u, s) == SpecRead(ops, u, s)
  {
    AuthenticFunctional(es, ops);
    if s > from {
      assert Present(es, ops, s);
      if ops[s - 1].user == u {
        LastWriteIsNewest(es, ops, u, s);
      } else {
        ReadSkips(es, u, s);
        ReadsFollow(es, ops, from, u, s - 1);
      }
    }
  }

  // ---------- steps that leave the entries alone ----------

  /** Same entries, same history, no lower floor: reads stay right. */
  lemma SameEntriesReadRight(st: State, st': State)
    requires ReadsRight(st) && Entries(st') == Entries(st) && st'.history == st.history && st'.floor == st.floor
    ensures ReadsRight(st')
  {
    hide Entries;
  }

  lemma InitInv()
    ensures Inv(EMPTY)
  {
    hide VersionEntries, VersionOk, AllOrdered, Read;
    EmptyVersionOk();
    assert Entries(EMPTY) == {};
    forall u: UserKey, s: nat | s <= 0 ensures Read(Entries(EMPTY), u, s) == SpecRead([], u, s) {
      ReadAbsent({}, u, s);
    }
  }

  lemma EmptyVersionOk()
    ensures VersionOk(NO_FILES) && AllOrdered(NO_FILES) && VersionEntries(NO_FILES) == {}
  {
    hide VersionEntries;
    forall l | 0 <= l < NUM_LEVELS ensures NO_FILES[l] == [] {
      EmptyLevel(l);
    }
    forall l: nat, f ensures !InLevel(NO_FILES, l, f) {
    }
    forall e ensures e !in VersionEntries(NO_FILES) {
      InVersion(NO_FILES, e);
    }
  }

  lemma EmptyLevel(l: nat)
    requires l < NUM_LEVELS
    ensures |NO_FILES| == NUM_LEVELS && NO_FILES[l] == []
  {
  }

  lemma BeginWriteKeeps(st: State, step: Step, st': State)
    requires Inv(st) && step.BeginWrite? && Next(st, step, st')
    ensures Inv(st')
  {
    hide VersionEntries, VersionOk, AllOrdered, Sorted, AllNewer, JobOk, ReadsRight;
    assert Entries(st') == Entries(st);
    assert Ops(st)[..|Ops(st)|] == Ops(st'  )[..|Ops(st)|];
    SameEntriesReadRight(st, st');
  }

  lemma NewFileNumberKeeps(st: State, step: Step, st': State)
    requires Inv(st) && step.NewFileNumber? && Next(st, step, st')
    ensures Inv(st')
  {
    hide VersionEntries, VersionOk, AllOrdered, Sorted, AllNewer, JobOk, ReadsRight, Authentic, UpTo;
    assert Entries(st') == Entries(st);
    SameEntriesReadRight(st, st');
  }

  lemma TakeSnapshotKeeps(st: State, step: Step, st': State)
    requires Inv(st) && step.TakeSnapshot? && Next(st, step, st')
    ensures Inv(st')
  {
    hide Layered, JobOk, ReadsRight, Entries;
    SameLayers(st, st');
    SameEntriesReadRight(st, st');
  }

  lemma ReleaseSnapshotKeeps(st: State, step: Step, st': State)
    requires Inv(st) && step.ReleaseSnapshot? && Next(st, step, st')
    ensures Inv(st')
  {
    hide Layered, JobOk, ReadsRight, SnapshotsOk, Entries;
    assert Entries(st') == Entries(st) && Layered(st') by { SameLayers(st, st'); }
    SameEntriesReadRight(st, st');
    FewerSnapshots(st, st', step.index, st.floor);
    if st.job.Some? {
      FewerSnapshots(st, st', step.index, st.job.value.smallest);
    }
  }

  lemma FewerSnapshots(st: State, st': State, i: nat, least: nat)
    requires SnapshotsOk(st, least) && i < |st.snapshots| && st'.history == st.history
    requires st'.snapshots == st.snapshots[..i] + st.snapshots[i + 1..]
    ensures SnapshotsOk(st', least)
  {
  }

  /** The layers do not depend on snapshots, the job or the floor. */
  lemma SameLayers(st: State, st': State)
    requires Layered(st) && st'.mem == st.mem && st'.imm == st.imm && st'.version == st.version
    requires st'.history == st.history && st'.inflight == st.inflight && st.nextFile <= st'.nextFile
    ensures Layered(st') && Entries(st') == Entries(st)
  {
    hide VersionEntries, VersionOk, AllOrdered, Sorted, AllNewer, Authentic, UpTo;
  }

  lemma SwitchKeeps(st: State, step: Step, st': State)
    requires Inv(st) && step.SwitchMemTable? && Next(st, step, st')
    ensures Inv(st')
  {
    hide VersionEntries, VersionOk, AllOrdered, JobOk, ReadsRight, Authentic;
    assert Entries(st') == Entries(st);
    SameEntriesReadRight(st, st');
  }

  lemma FlushNothingKeeps(st: State, step: Step, st': State)
    requires Inv(st) && step.FlushNothing? && Next(st, step, st')
    ensures Inv(st')
  {
    hide VersionEntries, VersionOk, AllOrdered, JobOk, ReadsRight, Authentic;
    assert ImmEntries(st) == {};
    assert Entries(st') == Entries(st);
    SameEntriesReadRight(st, st');
  }

  lemma StartCompactionKeeps(st: State, step: Step, st': State)
    requires Inv(st) && step.StartCompaction? && Next(st, step, st')
    ensures Inv(st')
  {
    hide VersionEntries, VersionOk, AllOrdered, Sorted, AllNewer, JobOk, ReadsRight, Authentic, UpTo, Ready;
    assert Entries(st') == Entries(st);
    SameEntriesReadRight(st, st');
    ReadyStartsJob(st.version, step.level, step.in0, step.in1, step.hull, SmallestSnapshot(st));
  }

  // ---------- writing ----------

  lemma MemInsertSorted(mem: seq<Entry>, e: Entry)
    requires Sorted(mem) && forall x :: x in mem ==> x.key != e.key
    ensures Sorted(MemInsert(mem, e))
    ensures Contents(MemInsert(mem, e)) == Contents(mem) + {e}
  {
    hide Less, Seek;
    var i := Seek(mem, e.key);
    var a, b := mem[..i], mem[i..];
    assert mem == a + b;
    forall j | 0 <= j < |b| ensures Less(e.key, b[j].key) {
      AfterSeek(mem, i, e.key, i + j);
    }
    SplicedSorted(a, e, b);
  }

  lemma AfterSeek(mem: seq<Entry>, i: nat, k: InternalKey, j: nat)
    requires Sorted(mem) && i <= j < |mem| && !Less(mem[i].key, k) && forall x :: x in mem ==> x.key != k
    ensures Less(k, mem[j].key)
  {
    assert mem[i] in mem;
    LessTotal(mem[i].key, k);
    assert i < j ==> Less(mem[i].key, mem[j].key);
  }

  lemma SplicedSorted(a: seq<Entry>, e: Entry, b: seq<Entry>)
    requires Sorted(a) && Sorted(b)
    requires forall i :: 0 <= i < |a| ==> Less(a[i].key, e.key)
    requires forall j :: 0 <= j < |b| ==> Less(e.key, b[j].key)
    ensures Sorted(a + [e] + b)
  {
    hide Less;
    var r := a + [e] + b;
    forall j, k | 0 <= j < k < |r| ensures Less(r[j].key, r[k].key) {
      if j < |a| && |a| < k {
        LessTransitive(a[j].key, e.key, b[k - |a| - 1].key);
      }
    }
  }

  lemma LessTransitive(a: InternalKey, b: InternalKey, c: InternalKey)
    requires Less(a, b) && Less(b, c)
    ensures Less(a, c)
  {
  }

  lemma InsertOneKeeps(st: State, step: Step, st': State)
    requires Inv(st) && step.InsertOne? && Next(st, step, st')
    ensures Inv(st')
  {
    hide VersionEntries, VersionOk, AllOrdered, JobOk, Sorted, MemInsert, AllNewer, Authentic, ReadsRight;
    var g := st.inflight.value;
    var e := EntryOf(g.ops[g.inserted], |st.history| + 1 + g.inserted);
    forall x | x in st.mem ensures x.key != e.key {
      assert x in Contents(st.mem);
    }
    MemInsertSorted(st.mem, e);
    assert Entries(st') == Entries(st) + {e};
    assert Ops(st') == Ops(st) && Ops(st)[e.key.sequence - 1] == g.ops[g.inserted];
    InsertKeepsLayers(st, st', e);
    InsertKeepsGroup(st, st', e);
    InsertKeepsReads(st, st', e);
  }

  lemma InsertKeepsGroup(st: State, st': State, e: Entry)
    requires GroupOk(st) && st.inflight.Some? && st.inflight.value.inserted < |st.inflight.value.ops|
    requires e == EntryOf(st.inflight.value.ops[st.inflight.value.inserted],
                          |st.history| + 1 + st.inflight.value.inserted)
    requires Contents(st'.mem) == Contents(st.mem) + {e} && st'.history == st.history
    requires st'.inflight == Some(Group(st.inflight.value.ops, st.inflight.value.inserted + 1))
    ensures GroupOk(st')
  {
    var g := st.inflight.value;
    forall k | 0 <= k < g.inserted + 1 ensures EntryOf(g.ops[k], |st.history| + 1 + k) in st'.mem {
      var x := EntryOf(g.ops[k], |st.history| + 1 + k);
      assert k < g.inserted ==> x in Contents(st.mem);
      assert x in Contents(st'.mem);
    }
  }

  lemma InsertKeepsLayers(st: State, st': State, e: Entry)
    requires Layered(st) && st.inflight.Some? && st'.inflight.Some?
    requires st' == st.(mem := st'.mem, inflight := st'.inflight) && Ops(st') == Ops(st)
    requires Inserted(st') == Inserted(st) + 1 && e.key.sequence == LastSequence(st) + Inserted(st) + 1 <= |Ops(st)|
    requires e == EntryOf(Ops(st)[e.key.sequence - 1], e.key.sequence)
    requires Sorted(st'.mem) && Contents(st'.mem) == Contents(st.mem) + {e}
    ensures Layered(st')
  {
    hide VersionEntries, VersionOk, AllOrdered, Sorted, Ops, Contents;
    assert ImmEntries(st') == ImmEntries(st);
    assert Entries(st') == Entries(st) + {e};
  }

  lemma InsertKeepsReads(st: State, st': State, e: Entry)
    requires ReadsRight(st) && Authentic(Entries(st'), Ops(st')) && Entries(st') == Entries(st) + {e}
    requires st'.history == st.history && st'.floor == st.floor && e.key.sequence > LastSequence(st)
    ensures ReadsRight(st')
  {
    hide Entries, Ops;
    AuthenticFunctional(Entries(st'), Ops(st'));
    FunctionalSubset(Entries(st), Entries(st'));
    forall u: UserKey, s: nat | st'.floor <= s <= LastSequence(st')
      ensures Read(Entries(st'), u, s) == SpecRead(st'.history, u, s)
    {
      ReadAgrees(Entries(st), Entries(st'), u, s);
    }
  }

  lemma PublishKeeps(st: State, step: Step, st': State)
    requires Inv(st) && step.Publish? && Next(st, step, st')
    ensures Inv(st')
  {
    hide VersionEntries, VersionOk, AllOrdered, JobOk, Sorted, AllNewer, Authentic, ReadsRight;
    assert Entries(st') == Entries(st) && Ops(st') == Ops(st) == st'.history;
    PublishedReads(st, st');
  }

  lemma PublishedReads(st: State, st': State)
    requires ReadsRight(st) && GroupOk(st) && Authentic(Entries(st), Ops(st)) && st.floor <= LastSequence(st)
    requires st.inflight.Some? && st.inflight.value.inserted == |st.inflight.value.ops|
    requires Entries(st') == Entries(st) && st'.history == Ops(st) && st'.floor == st.floor
    ensures ReadsRight(st')
  {
    hide Read, SpecRead, Authentic;
    var ops := st'.history;
    forall n | |st.history| < n <= |ops| ensures Present(Entries(st), ops, n) {
      var k := n - 1 - |st.history|;
      assert ops[n - 1] == st.inflight.value.ops[k];
      assert EntryOf(st.inflight.value.ops[k], |st.history| + 1 + k) in st.mem;
    }
    forall u: UserKey, s: nat | st'.floor <= s <= LastSequence(st')
      ensures Read(Entries(st'), u, s) == SpecRead(ops, u, s)
    {
      if s <= |st.history| {
        SpecReadPrefix(st.history, st.inflight.value.ops, u, s);
      } else {
        SpecReadPrefix(st.history, st.inflight.value.ops, u, |st.history|);
        ReadsFollow(Entries(st), ops, |st.history|, u, s);
      }
    }
  }

  // ---------- flush, move, compaction ----------

  /** A version with no new entries keeps the layers in order. */
  lemma SmallerVersionLayered(st: State, st': State)
    requires Layered(st) && VersionOk(st'.version) && AllOrdered(st'.version)
    requires VersionEntries(st'.version) <= VersionEntries(st.version)
    requires forall l, f :: InLevel(st'.version, l, f) ==> f.number < st'.nextFile
    requires st'.mem == st.mem && st'.imm == st.imm && st'.history == st.history && st'.inflight == st.inflight
    ensures Layered(st')
  {
    hide VersionEntries, VersionOk, AllOrdered, Sorted, Contents;
    assert ImmEntries(st') == ImmEntries(st) && Ops(st') == Ops(st) && Inserted(st') == Inserted(st);
    assert Entries(st') <= Entries(st);
  }

  lemma FlushKeeps(st: State, step: Step, st': State)
    requires Inv(st) && step.Flush? && Next(st, step, st')
    ensures Inv(st')
  {
    hide VersionEntries, VersionOk, AllOrdered, Sorted, ReadsRight, ValidFile, PlacedClear, JobOk, AllNewer, Authentic;
    hide UpTo, Added;
    var f := step.file;
    assert ImmEntries(st) == Contents(f.entries);
    AuthenticFunctional(Entries(st), Ops(st));
    assert VersionEntries(st.version) + Contents(f.entries) <= Entries(st);
    FunctionalSubset(VersionEntries(st.version) + Contents(f.entries), Entries(st));
    FlushKeepsOrder(st.version, step.level, f, st'.version);
    EntriesAdded(st.version, step.level, f, st'.version);
    assert Entries(st') == Entries(st);
    SameEntriesReadRight(st, st');
    FlushedLayers(st, st', step.level, f);
    if st.job.Some? {
      FlushKeepsJob(st.version, step.level, f, st'.version, st.job.value);
    }
  }

  lemma FlushedLayers(st: State, st': State, level: nat, f: FileMeta)
    requires Layered(st) && VersionOk(st'.version) && Added(st.version, level, f, st'.version)
    requires st.imm.Some? && f.number == st.nextFile && f.entries == st.imm.value
    requires st' == st.(imm := None, version := st'.version, nextFile := st.nextFile + 1)
    requires VersionEntries(st'.version) == VersionEntries(st.version) + Contents(f.entries)
    requires Entries(st') == Entries(st)
    ensures Layered(st')
  {
    hide VersionEntries, VersionOk, Ordered, Sorted, Contents, Authentic, Entries;
    assert Ops(st') == Ops(st) && ImmEntries(st') == {};
  }

  lemma TrivialMoveKeeps(st: State, step: Step, st': State)
    requires Inv(st) && step.TrivialMove? && Next(st, step, st')
    ensures Inv(st')
  {
    hide VersionEntries, VersionOk, AllOrdered, Sorted, ReadsRight, AllNewer, Authentic, UpTo, Ready, Applied, JobOk;
    MoveKeepsOrder(st.version, step.from, step.moved, step.range, st'.version);
    assert Entries(st') == Entries(st);
    SameEntriesReadRight(st, st');
    SmallerVersionLayered(st, st');
  }

  lemma FinishCompactionKeeps(st: State, step: Step, st': State)
    requires Inv(st) && step.FinishCompaction? && Next(st, step, st')
    ensures Inv(st')
  {
    hide VersionEntries, VersionOk, AllOrdered, Sorted, ReadsRight, AllNewer, Authentic, UpTo, JobOk, Survivors;
    hide EntrySet, OutputsFit, OutputsClear, Resurrects;
    var job := st.job.value;
    InstallKeepsOrder(st.version, job, step.outputs, st'.version);
    EntriesBefore(st.version, job);
    EntriesAfter(st.version, job, step.outputs, st'.version);
    assert VersionEntries(st'.version) <= VersionEntries(st.version);
    forall l, f | InLevel(st'.version, l, f) ensures f.number < st'.nextFile {
      assert InLevel(st.version, l, f) || f in step.outputs;
    }
    SmallerVersionLayered(st, st');
    CompactedReads(st, step.outputs, st');
  }

  lemma CompactedReads(st: State, outputs: seq<FileMeta>, st': State)
    requires Inv(st) && Next(st, FinishCompaction(outputs), st')
    ensures ReadsRight(st')
  {
    hide VersionEntries, VersionOk, AllOrdered, Sorted, JobOk, Survivors, EntrySet, OutputsOk, Resurrects, Authentic;
    hide UpTo, Replaced, Read, SpecRead, OutputsClear;
    var job := st.job.value;
    var upper := ImmEntries(st) + Contents(st.mem);
    assert Entries(st) == VersionEntries(st.version) + upper;
    assert Entries(st') == VersionEntries(st'.version) + upper;
    AuthenticFunctional(Entries(st), Ops(st));
    assert AllNewer(upper, VersionEntries(st.version));
    InstallKeepsReadsIff(st.version, upper, job, outputs, st'.version);
    assert SameReads(Entries(st), Entries(st'), job.smallest);
  }

  // ---------- runs ----------

  lemma StepKeepsInv(st: State, step: Step, st': State)
    requires Inv(st) && Next(st, step, st')
    ensures Inv(st')
  {
    match step
    case NewFileNumber => NewFileNumberKeeps(st, step, st');
    case BeginWrite(_) => BeginWriteKeeps(st, step, st');
    case InsertOne => InsertOneKeeps(st, step, st');
    case Publish => PublishKeeps(st, step, st');
    case SwitchMemTable => SwitchKeeps(st, step, st');
    case Flush(_, _) => FlushKeeps(st, step, st');
    case FlushNothing => FlushNothingKeeps(st, step, st');
    case StartCompaction(_, _, _, _) => StartCompactionKeeps(st, step, st');
    case FinishCompaction(_) => FinishCompactionKeeps(st, step, st');
    case TrivialMove(_, _, _) => TrivialMoveKeeps(st, step, st');
    case TakeSnapshot => TakeSnapshotKeeps(st, step, st');
    case ReleaseSnapshot(_) => ReleaseSnapshotKeeps(st, step, st');
  }

  /** A run from the empty database. */
  ghost predicate IsRun(run: seq<State>, steps: seq<Step>) {
    && |run| == |steps| + 1
    && run[0] == EMPTY
    && forall i :: 0 <= i < |steps| ==> Next(run[i], steps[i], run[i + 1])
  }

  lemma {:induction false} RunsKeepInv(run: seq<State>, steps: seq<Step>, n: nat)
    requires IsRun(run, steps) && n < |run|
    ensures Inv(run[n])
  {
    hide Inv, Next;
    if n == 0 {
      InitInv();
    } else {
      RunsKeepInv(run, steps, n - 1);
      StepKeepsInv(run[n - 1], steps[n - 1], run[n]);
    }
  }
}
