/** Installing a compaction: the new version keeps the level order, and what it keeps of the meaning.

    A job is a compaction in progress.  Memtable flushes may install files while it runs, so everything
    here is stated against the current version, of which the job's input version is an earlier state. */
module Installing {
  import opened InternalKeys
  import opened Meaning
  import opened Files
  import opened Versions
  import opened InputSelection
  import opened Runs
  import opened Compactions
  import opened Edits

  datatype Job = Job(level: nat, in0: seq<FileMeta>, in1: seq<FileMeta>, inputVersion: Version, smallest: nat)

  ghost predicate IsInput(job: Job, l: nat, f: FileMeta) {
    (l == job.level && f in job.in0) || (l == job.level + 1 && f in job.in1)
  }

  ghost predicate ShareUser(f: FileMeta, g: FileMeta) {
    exists x, y :: x in f.entries && y in g.entries && x.key.user == y.key.user
  }

  /** The file lies wholly before or wholly after all inputs of the job. */
  ghost predicate Room(job: Job, g: FileMeta) {
    || (forall f :: f in job.in0 + job.in1 ==> Less(g.largest, f.smallest))
    || (forall f :: f in job.in0 + job.in1 ==> Less(f.largest, g.smallest))
  }

  /** No file of the output level left out of the job lies among its inputs. */
  ghost predicate RoomLeft(v: Version, job: Job) {
    forall g :: InLevel(v, job.level + 1, g) && g !in job.in1 ==> Room(job, g)
  }

  /** What a running job may rely on in the current version. */
  ghost predicate JobOk(v: Version, job: Job) {
    && |v| == NUM_LEVELS && job.level + 1 < NUM_LEVELS && VersionOk(job.inputVersion)
    && (forall f :: f in job.in0 ==> f in v[job.level])
    && (forall f :: f in job.in1 ==> f in v[job.level + 1])
    && (if job.level == 0 then Distinct(job.in0) else SortedLevel(job.in0))
    && SortedLevel(job.in1)
    && LeftOutNewer(v[job.level], job.in0)
    && (forall f, g :: f in job.in0 && g in v[job.level + 1] && g !in job.in1 ==> Apart(f, g))
    && (forall l, g :: job.level + 2 <= l && InLevel(v, l, g) ==> InLevel(job.inputVersion, l, g) || Unshared(job, g))
  }

  /** A file with no user key of the job's inputs. */
  ghost predicate Unshared(job: Job, g: FileMeta) {
    forall f :: f in job.in0 + job.in1 ==> !ShareUser(f, g)
  }

  /** A selection that is ready starts a sound job. */
  lemma ReadyStartsJob(v: Version, level: nat, in0: seq<FileMeta>, in1: seq<FileMeta>, hull: Range, smallest: nat)
    requires VersionOk(v) && Ready(v, level, in0, in1, hull)
    ensures JobOk(v, Job(level, in0, in1, v, smallest))
    ensures RoomLeft(v, Job(level, in0, in1, v, smallest))
  {
    hide VersionEntries, Functional, LevelOrder, UniqueNumbers, Newer;
    var job := Job(level, in0, in1, v, smallest);
    SelectedSorted(v[level + 1], hull);
    forall f, g | f in in0 && g in v[level + 1] && g !in in1 ensures Apart(f, g) {
      assert Inside(f, hull) && !Overlaps(g, hull);
    }
    forall g | g in v[level + 1] && g !in in1 ensures Room(job, g) {
      LeftOutHasRoom(v, job, hull, g);
    }
  }

  lemma LeftOutHasRoom(v: Version, job: Job, hull: Range, g: FileMeta)
    requires VersionOk(v) && Ready(v, job.level, job.in0, job.in1, hull)
    requires g in v[job.level + 1] && g !in job.in1
    ensures Room(job, g)
  {
    hide VersionEntries, Functional, LevelOrder, UniqueNumbers, Newer, LeftOutNewer, Sorted, Bounded;
    RangeOfFile(g);
    assert !Overlaps(g, hull);
    forall f | f in job.in0 + job.in1
      ensures AfterFile(hull.lo, g) ==> Less(g.largest, f.smallest)
      ensures !AfterFile(hull.lo, g) ==> Less(f.largest, g.smallest)
    {
      if f in job.in0 {
        RangeOfFile(f);
        assert Inside(f, hull);
      } else {
        assert f in job.in1 && Overlaps(f, hull);
        RangeOfFile(f);
        SortedOrApart(v[job.level + 1], f, g);
      }
    }
  }

  // ---------- outputs and the edit ----------

  ghost function InputEntries(job: Job): set<Entry> {
    EntrySet(job.in0 + job.in1)
  }

  /** Output files that may take the place of the inputs: sorted, with nothing but input entries, and
      with numbers not used elsewhere (a moved file keeps the number it had at the input level). */
  ghost predicate OutputsFit(v: Version, job: Job, outputs: seq<FileMeta>) {
    && ValidFiles(outputs) && SortedLevel(outputs)
    && EntrySet(outputs) <= InputEntries(job)
    && (forall o, l, f :: o in outputs && InLevel(v, l, f) && o.number == f.number ==> l == job.level && f in job.in0)
    && (forall o, o' :: o in outputs && o' in outputs && o.number == o'.number ==> o == o')
  }

  /** The outputs of the compaction loop hold exactly the surviving entries. */
  ghost predicate OutputsOk(v: Version, job: Job, outputs: seq<FileMeta>) {
    && OutputsFit(v, job, outputs)
    && EntrySet(outputs) == Survivors(InputEntries(job), job.smallest, BaseKeys(job.inputVersion, job.level))
  }

  function CompactionEdit(job: Job, outputs: seq<FileMeta>): VersionEdit {
    VersionEdit((set f | f in job.in0 :: (job.level, f.number)) + (set f | f in job.in1 :: (job.level + 1, f.number)),
                seq(|outputs|, i requires 0 <= i < |outputs| => (job.level + 1, outputs[i])))
  }

  /** The inputs are gone from the version, the outputs are there, nothing else changed. */
  ghost predicate Replaced(v: Version, job: Job, outputs: seq<FileMeta>, v': Version) {
    && AllOrdered(v')
    && forall l, f ::
         InLevel(v', l, f)
         <==> (InLevel(v, l, f) && !IsInput(job, l, f)) || (l == job.level + 1 && f in outputs)
  }

  lemma EditReplaces(v: Version, job: Job, outputs: seq<FileMeta>, v': Version)
    requires VersionOk(v) && JobOk(v, job)
    requires Applied(v, CompactionEdit(job, outputs), v')
    ensures Replaced(v, job, outputs, v')
  {
    hide VersionEntries, Functional, LevelOrder, Newer, ValidFiles, SortedLevel, LeftOutNewer, Room;
    var edit := CompactionEdit(job, outputs);
    forall l: nat, f
      ensures InLevel(v', l, f) <==> (InLevel(v, l, f) && !IsInput(job, l, f)) || (l == job.level + 1 && f in outputs)
    {
      if l < NUM_LEVELS {
        assert LevelApplied(v[l], edit, l, v'[l]);
        EditAdds(job, outputs, l, f);
        if InLevel(v, l, f) {
          EditDeletes(v, job, outputs, l, f);
        }
      }
    }
    forall l | 0 <= l < NUM_LEVELS ensures Ordered(v'[l]) {
      assert LevelApplied(v[l], edit, l, v'[l]);
    }
  }

  lemma EditAdds(job: Job, outputs: seq<FileMeta>, l: nat, f: FileMeta)
    ensures AddsAt(CompactionEdit(job, outputs), l, f) <==> l == job.level + 1 && f in outputs
  {
    var added := CompactionEdit(job, outputs).added;
    if f in outputs && l == job.level + 1 {
      var i :| 0 <= i < |outputs| && outputs[i] == f;
      assert added[i] == (l, f);
    }
  }

  lemma EditDeletes(v: Version, job: Job, outputs: seq<FileMeta>, l: nat, f: FileMeta)
    requires UniqueNumbers(v) && InLevel(v, l, f) && job.level + 1 < |v|
    requires forall g :: g in job.in0 ==> g in v[job.level]
    requires forall g :: g in job.in1 ==> g in v[job.level + 1]
    ensures f.number in DeletedAt(CompactionEdit(job, outputs), l) <==> IsInput(job, l, f)
  {
    var edit := CompactionEdit(job, outputs);
    if f.number in DeletedAt(edit, l) {
      assert (l, f.number) in edit.deleted;
      if g :| g in job.in0 && (job.level, g.number) == (l, f.number) {
        assert InLevel(v, job.level, g);
      } else {
        var g :| g in job.in1 && (job.level + 1, g.number) == (l, f.number);
        assert InLevel(v, job.level + 1, g);
      }
    }
    if IsInput(job, l, f) {
      assert (l, f.number) in edit.deleted;
    }
  }

  // ---------- the new version is in order ----------

  /** An output entry comes from an input file. */
  lemma OutputEntryFrom(v: Version, job: Job, outputs: seq<FileMeta>, o: FileMeta, e: Entry)
    returns (l: nat, f: FileMeta)
    requires JobOk(v, job) && OutputsFit(v, job, outputs) && o in outputs && e in o.entries
    ensures e in f.entries && InLevel(v, l, f) && IsInput(job, l, f)
  {
    hide VersionOk, Newer, Room, Unshared, ValidFiles, SortedLevel, Apart;
    assert e in EntrySet(outputs);
    assert e in InputEntries(job);
    f :| f in job.in0 + job.in1 && e in f.entries;
    l := if f in job.in0 then job.level else job.level + 1;
  }

  /** No output overlaps a file of the output level that the job left out. */
  ghost predicate OutputsClear(v: Version, job: Job, outputs: seq<FileMeta>) {
    forall g, o :: InLevel(v, job.level + 1, g) && g !in job.in1 && o in outputs ==>
      Less(g.largest, o.smallest) || Less(o.largest, g.smallest)
  }

  /** Installing outputs keeps the level order if and only if they are clear of the files left out. */
  lemma InstallKeepsOrderIff(v: Version, job: Job, outputs: seq<FileMeta>, v': Version)
    requires VersionOk(v) && JobOk(v, job) && OutputsFit(v, job, outputs) && Replaced(v, job, outputs, v')
    ensures VersionOk(v') <==> OutputsClear(v, job, outputs)
  {
    hide VersionEntries, Functional, LevelOrder, UniqueNumbers, ValidFiles, SortedLevel, EntrySet, AllOrdered;
    hide LeftOutNewer, Less, Apart, Unshared;
    if OutputsClear(v, job, outputs) {
      InstallKeepsOrder(v, job, outputs, v');
    }
    if VersionOk(v') {
      forall g, o | InLevel(v, job.level + 1, g) && g !in job.in1 && o in outputs
        ensures Less(g.largest, o.smallest) || Less(o.largest, g.smallest)
      {
        assert InLevel(v', job.level + 1, g) && InLevel(v', job.level + 1, o);
        SortedOrApart(v'[job.level + 1], g, o);
        assert g.number != o.number;
      }
    }
  }

  lemma InstallKeepsOrder(v: Version, job: Job, outputs: seq<FileMeta>, v': Version)
    requires VersionOk(v) && JobOk(v, job) && OutputsFit(v, job, outputs) && Replaced(v, job, outputs, v')
    requires OutputsClear(v, job, outputs)
    ensures VersionOk(v')
  {
    hide OutputsClear, VersionEntries, Functional, Newer, LeftOutNewer, Room, Survivors, Sorted;
    forall l | 0 <= l < NUM_LEVELS ensures ValidFiles(v'[l]) {
      forall f | f in v'[l] ensures ValidFile(f) {
        assert InLevel(v', l, f);
      }
    }
    forall l | 1 <= l < NUM_LEVELS ensures SortedLevel(v'[l]) {
      InstallKeepsSorted(v, job, outputs, v', l);
    }
    OrderedDistinct(v'[0]);
    InstallKeepsLevelOrder(v, job, outputs, v');
    InstallKeepsUnique(v, job, outputs, v');
    InstallKeepsFunctional(v, job, outputs, v');
  }

  lemma OrderedDistinct(files: seq<FileMeta>)
    requires Ordered(files)
    ensures Distinct(files)
  {
    forall i, j | 0 <= i < j < |files| ensures files[i] != files[j] {
      BySmallestTotal(files[i], files[j]);
    }
  }

  lemma InstallKeepsUnique(v: Version, job: Job, outputs: seq<FileMeta>, v': Version)
    requires UniqueNumbers(v) && OutputsFit(v, job, outputs) && Replaced(v, job, outputs, v')
    ensures UniqueNumbers(v')
  {
    hide ValidFiles, SortedLevel, EntrySet, AllOrdered;
  }

  lemma InstallKeepsFunctional(v: Version, job: Job, outputs: seq<FileMeta>, v': Version)
    requires VersionOk(v) && JobOk(v, job) && OutputsFit(v, job, outputs) && Replaced(v, job, outputs, v')
    ensures Functional(VersionEntries(v'))
  {
    hide JobOk, OutputsFit, IsInput, VersionEntries, AllOrdered, LevelOrder, UniqueNumbers;
    forall e | e in VersionEntries(v') ensures e in VersionEntries(v) {
      InVersion(v', e);
      InVersion(v, e);
      var l, f :| InLevel(v', l, f) && e in f.entries;
      if !InLevel(v, l, f) {
        var m, g := OutputEntryFrom(v, job, outputs, f, e);
      }
    }
    FunctionalSubset(VersionEntries(v'), VersionEntries(v));
  }

  /** Ordered by smallest key and pairwise apart in internal-key order: sorted and disjoint. */
  lemma SortedFromApart(files: seq<FileMeta>)
    requires Ordered(files) && ValidFiles(files)
    requires forall f, g :: f in files && g in files && f != g ==>
               Less(f.largest, g.smallest) || Less(g.largest, f.smallest)
    ensures SortedLevel(files)
  {
    forall i, j | 0 <= i < j < |files| ensures Less(files[i].largest, files[j].smallest) {
      RangeOfFile(files[i]);
      RangeOfFile(files[j]);
      assert BySmallest(files[i], files[j]);
      BySmallestTotal(files[i], files[j]);
    }
  }

  lemma InstallKeepsSorted(v: Version, job: Job, outputs: seq<FileMeta>, v': Version, l: nat)
    requires VersionOk(v) && JobOk(v, job) && OutputsFit(v, job, outputs) && Replaced(v, job, outputs, v')
    requires OutputsClear(v, job, outputs)
    requires 1 <= l < NUM_LEVELS && ValidFiles(v'[l])
    ensures SortedLevel(v'[l])
  {
    hide OutputsClear, JobOk, OutputsFit, VersionEntries, Functional, LevelOrder, UniqueNumbers, Sorted, ValidFile;
    forall f, g | f in v'[l] && g in v'[l] && f != g
      ensures Less(f.largest, g.smallest) || Less(g.largest, f.smallest)
    {
      assert InLevel(v', l, f) && InLevel(v', l, g);
      PairApart(v, job, outputs, l, f, g);
    }
    SortedFromApart(v'[l]);
  }

  lemma PairApart(v: Version, job: Job, outputs: seq<FileMeta>, l: nat, f: FileMeta, g: FileMeta)
    requires VersionOk(v) && JobOk(v, job) && OutputsFit(v, job, outputs) && 1 <= l < NUM_LEVELS && f != g
    requires OutputsClear(v, job, outputs)
    requires (InLevel(v, l, f) && !IsInput(job, l, f)) || (l == job.level + 1 && f in outputs)
    requires (InLevel(v, l, g) && !IsInput(job, l, g)) || (l == job.level + 1 && g in outputs)
    ensures Less(f.largest, g.smallest) || Less(g.largest, f.smallest)
  {
    hide JobOk, OutputsFit, VersionEntries, Functional, LevelOrder, UniqueNumbers, Sorted, ValidFile;
    if InLevel(v, l, f) && !IsInput(job, l, f) {
      if InLevel(v, l, g) && !IsInput(job, l, g) {
        SortedOrApart(v[l], f, g);
      }
    } else if !(InLevel(v, l, g) && !IsInput(job, l, g)) {
      OutputsApart(v, job, outputs, f, g);
    }
  }

  lemma OutputsApart(v: Version, job: Job, outputs: seq<FileMeta>, f: FileMeta, g: FileMeta)
    requires OutputsFit(v, job, outputs) && f in outputs && g in outputs && f != g
    ensures Less(f.largest, g.smallest) || Less(g.largest, f.smallest)
  {
    hide Survivors, EntrySet, ValidFile;
    SortedOrApart(outputs, f, g);
  }

  /** As long as no file lies among the inputs, the outputs are clear whatever the loop writes. */
  lemma RoomKeepsClear(v: Version, job: Job, outputs: seq<FileMeta>)
    requires VersionOk(v) && JobOk(v, job) && OutputsFit(v, job, outputs) && RoomLeft(v, job)
    ensures OutputsClear(v, job, outputs)
  {
    hide VersionOk, JobOk, OutputsFit, Room, Less;
    forall g, o | InLevel(v, job.level + 1, g) && g !in job.in1 && o in outputs
      ensures Less(g.largest, o.smallest) || Less(o.largest, g.smallest)
    {
      OutputHasRoom(v, job, outputs, g, o);
    }
  }

  /** Outputs lie between the first and last input key. */
  lemma OutputHasRoom(v: Version, job: Job, outputs: seq<FileMeta>, g: FileMeta, o: FileMeta)
    requires VersionOk(v) && JobOk(v, job) && OutputsFit(v, job, outputs) && o in outputs
    requires Room(job, g)
    ensures Less(g.largest, o.smallest) || Less(o.largest, g.smallest)
  {
    hide VersionEntries, Functional, LevelOrder, UniqueNumbers, Newer, LeftOutNewer, Sorted, Bounded, Survivors;
    hide EntrySet;
    var first, last := o.entries[0], o.entries[|o.entries| - 1];
    var l, f := OutputEntryFrom(v, job, outputs, o, first);
    var m, h := OutputEntryFrom(v, job, outputs, o, last);
    EntryInRange(f, first);
    EntryInRange(h, last);
    assert f in job.in0 + job.in1 && h in job.in0 + job.in1;
  }

  lemma InstallKeepsLevelOrder(v: Version, job: Job, outputs: seq<FileMeta>, v': Version)
    requires VersionOk(v) && JobOk(v, job) && OutputsFit(v, job, outputs) && Replaced(v, job, outputs, v')
    ensures LevelOrder(v')
  {
    hide JobOk, OutputsFit, VersionEntries, Functional, Newer, UniqueNumbers, ValidFiles, SortedLevel, AllOrdered;
    forall l, f, m, g | InLevel(v', l, f) && InLevel(v', m, g) && SearchedBefore(l, f, m, g) ensures Newer(f, g) {
      if InLevel(v, l, f) && !IsInput(job, l, f) {
        if InLevel(v, m, g) && !IsInput(job, m, g) {
        } else {
          NewerThanOutput(v, job, outputs, l, f, g);
        }
      } else {
        assert InLevel(v, m, g) && job.level + 1 < m;
        OutputNewer(v, job, outputs, f, m, g);
      }
    }
  }

  lemma NewerThanOutput(v: Version, job: Job, outputs: seq<FileMeta>, l: nat, f: FileMeta, o: FileMeta)
    requires VersionOk(v) && JobOk(v, job) && OutputsFit(v, job, outputs) && o in outputs
    requires InLevel(v, l, f) && !IsInput(job, l, f) && l <= job.level
    ensures Newer(f, o)
  {
    hide OutputsFit, VersionEntries, Functional, UniqueNumbers, ValidFiles, SortedLevel, Room, Unshared, Apart;
    forall x, y | x in f.entries && y in o.entries && x.key.user == y.key.user ensures x.key.sequence > y.key.sequence {
      var m, h := OutputEntryFrom(v, job, outputs, o, y);
      assert Newer(f, h) by {
        if l < m {
          assert SearchedBefore(l, f, m, h);
        } else {
          assert h in job.in0 && f in v[job.level] && f !in job.in0;
        }
      }
    }
  }

  lemma OutputNewer(v: Version, job: Job, outputs: seq<FileMeta>, o: FileMeta, m: nat, g: FileMeta)
    requires VersionOk(v) && JobOk(v, job) && OutputsFit(v, job, outputs) && o in outputs
    requires InLevel(v, m, g) && job.level + 1 < m
    ensures Newer(o, g)
  {
    hide JobOk, OutputsFit, VersionEntries, Functional, UniqueNumbers, ValidFiles, SortedLevel;
    forall x, y | x in o.entries && y in g.entries && x.key.user == y.key.user ensures x.key.sequence > y.key.sequence {
      var l, h := OutputEntryFrom(v, job, outputs, o, x);
      assert SearchedBefore(l, h, m, g);
    }
  }
}
