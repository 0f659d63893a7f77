/** What installing a compaction does to reads.

    The drop rules assume that below a base-level deletion nothing of its key remains.  Boundary files
    are added to the inputs of the compacted level only, not to those of the next level, so a user key
    can be split between an input file of the next level and the file after it.  The theorems here say
    exactly when that changes a read. */
module CompactionMeaning {
  import opened InternalKeys
  import opened Meaning
  import opened Files
  import opened Versions
  import opened InputSelection
  import opened Runs
  import opened Compactions
  import opened Edits
  import opened Installing

  /** Every entry of `a` was written after every entry of `b`. */
  ghost predicate AllNewer(a: set<Entry>, b: set<Entry>) {
    forall x, y :: x in a && y in b ==> x.key.sequence > y.key.sequence
  }

  /** The entries of the files a job leaves alone. */
  ghost function RestEntries(v: Version, job: Job): set<Entry> {
    set e | e in VersionEntries(v) && InRest(v, job, e)
  }

  ghost predicate InRest(v: Version, job: Job, e: Entry) {
    exists l, f :: InLevel(v, l, f) && !IsInput(job, l, f) && e in f.entries
  }

  lemma RestAre(v: Version, job: Job, e: Entry)
    ensures e in RestEntries(v, job) <==> InRest(v, job, e)
  {
    InVersion(v, e);
  }

  lemma EntriesBefore(v: Version, job: Job)
    requires JobOk(v, job)
    ensures VersionEntries(v) == InputEntries(job) + RestEntries(v, job)
  {
    hide VersionOk, Unshared, LeftOutNewer, VersionEntries, Apart;
    forall e ensures e in VersionEntries(v) <==> e in InputEntries(job) + RestEntries(v, job) {
      InVersion(v, e);
      RestAre(v, job, e);
      if e in VersionEntries(v) {
        var l, f :| InLevel(v, l, f) && e in f.entries;
        if IsInput(job, l, f) {
          assert f in job.in0 + job.in1;
        } else {
          assert InRest(v, job, e);
        }
      }
      if e in InputEntries(job) {
        var f :| f in job.in0 + job.in1 && e in f.entries;
        assert InLevel(v, if f in job.in0 then job.level else job.level + 1, f);
      }
    }
  }

  lemma EntriesAfter(v: Version, job: Job, outputs: seq<FileMeta>, v': Version)
    requires JobOk(v, job) && OutputsOk(v, job, outputs) && Replaced(v, job, outputs, v')
    ensures VersionEntries(v') == Survivors(InputEntries(job), job.smallest, BaseKeys(job.inputVersion, job.level))
            + RestEntries(v, job)
  {
    hide VersionOk, Unshared, LeftOutNewer, VersionEntries, Apart, IsInput, ValidFiles, SortedLevel, AllOrdered;
    hide Survivors, RestEntries;
    var kept := Survivors(InputEntries(job), job.smallest, BaseKeys(job.inputVersion, job.level));
    forall e ensures e in VersionEntries(v') <==> e in kept + RestEntries(v, job) {
      InVersion(v', e);
      RestAre(v, job, e);
      if e in VersionEntries(v') {
        var l, f :| InLevel(v', l, f) && e in f.entries;
        if InLevel(v, l, f) && !IsInput(job, l, f) {
          assert InRest(v, job, e);
        } else {
          assert f in outputs;
        }
      }
      if e in kept {
        assert e in EntrySet(outputs);
        var o :| o in outputs && e in o.entries;
        assert InLevel(v', job.level + 1, o);
      }
      if InRest(v, job, e) {
        var l, f :| InLevel(v, l, f) && !IsInput(job, l, f) && e in f.entries;
        assert InLevel(v', l, f);
      }
    }
  }

  /** A left-out file of the output level that goes on with the user key in which an input file ends. */
  ghost predicate Straddles(v: Version, job: Job, g: FileMeta) {
    InLevel(v, job.level + 1, g) && g !in job.in1 && exists f :: f in job.in1 && IsBoundary(g, f.largest)
  }

  /** A dropped deletion `d` that brings back the value at the start of the straddling file `g`. */
  ghost predicate Resurrects(v: Version, upper: set<Entry>, job: Job, d: Entry, g: FileMeta) {
    && IsNewest(InputEntries(job), d.key.user, job.smallest, d)
    && d.key.kind.Deletion? && IsBase(job.inputVersion, job.level, d.key.user)
    && Straddles(v, job, g) && g.entries != []
    && IsNewest(RestEntries(v, job) + upper, d.key.user, d.key.sequence, g.entries[0])
    && g.entries[0].key.kind.Value?
    && forall x :: x in RestEntries(v, job) + upper && x.key.user == d.key.user ==>
         !(d.key.sequence < x.key.sequence <= job.smallest)
  }

  /** Where an entry older than an input deletion of a base-level key can be: only in a straddling file. */
  lemma OlderIsStraddling(v: Version, job: Job, l: nat, h: FileMeta, d: Entry, m: nat, g: FileMeta, x: Entry)
    requires VersionOk(v) && JobOk(v, job)
    requires InLevel(v, l, h) && IsInput(job, l, h) && d in h.entries && IsBase(job.inputVersion, job.level, d.key.user)
    requires InLevel(v, m, g) && !IsInput(job, m, g) && x in g.entries
    requires x.key.user == d.key.user && x.key.sequence <= d.key.sequence
    ensures m == job.level + 1 && Straddles(v, job, g) && g.smallest.user == d.key.user
    ensures g.smallest.sequence < d.key.sequence
  {
    hide Functional, VersionEntries, Sorted, Bounded, UniqueNumbers;
    EntryInRange(h, d);
    EntryInRange(g, x);
    assert h in job.in0 + job.in1 && ShareUser(h, g);
    if m > job.level + 1 {
      assert false;
    } else if m < l || m == job.level {
      assert Newer(g, h) by {
        if m < l { assert SearchedBefore(m, g, l, h); }
      }
      assert false;
    } else if h in job.in0 && l == job.level {
      assert false;
    } else {
      SortedOrApart(v[l], h, g);
      if Less(g.largest, h.smallest) {
        EarlierIsNewer(v, l, g, h);
        assert false;
      }
      FirstOlder(v, l, h, d, g, x);
    }
  }

  lemma FirstOlder(v: Version, l: nat, h: FileMeta, d: Entry, g: FileMeta, x: Entry)
    requires VersionOk(v) && 0 < l && InLevel(v, l, h) && InLevel(v, l, g) && d in h.entries && x in g.entries
    requires Less(h.largest, g.smallest) && x.key.user == d.key.user
    ensures IsBoundary(g, h.largest) && g.smallest.user == d.key.user && g.smallest.sequence < d.key.sequence
  {
    hide Functional, VersionEntries, Sorted, Bounded, UniqueNumbers, LevelOrder;
    EntryInRange(h, d);
    EntryInRange(g, x);
    EarlierIsNewer(v, l, h, g);
    assert g.entries[0] in g.entries;
  }

  /** Compaction meaning, exactly: reads at every snapshot from the smallest one up are kept if and only if
      no dropped deletion brings back the value at the start of a straddling file. */
  lemma InstallKeepsReadsIff(v: Version, upper: set<Entry>, job: Job, outputs: seq<FileMeta>, v': Version)
    requires VersionOk(v) && JobOk(v, job) && OutputsOk(v, job, outputs) && Replaced(v, job, outputs, v')
    requires Functional(VersionEntries(v) + upper) && AllNewer(upper, VersionEntries(v))
    ensures SameReads(VersionEntries(v) + upper, VersionEntries(v') + upper, job.smallest)
       <==> !exists d, g :: Resurrects(v, upper, job, d, g)
  {
    hide VersionOk, JobOk, OutputsOk, Replaced, VersionEntries, Functional, InputEntries, RestEntries, Survivors;
    hide SameReads, Resurrects, Exposes, AllNewer;
    var base := BaseKeys(job.inputVersion, job.level);
    var inputs, rest := InputEntries(job), RestEntries(v, job) + upper;
    EntriesBefore(v, job);
    EntriesAfter(v, job, outputs, v');
    assert VersionEntries(v) + upper == inputs + rest;
    assert VersionEntries(v') + upper == Survivors(inputs, job.smallest, base) + rest;
    DropRulesKeepReadsIff(inputs, rest, job.smallest, base);
    if d, g :| Resurrects(v, upper, job, d, g) {
      ResurrectionExposes(v, upper, job, d, g);
    }
    if !Harmless(inputs, rest, job.smallest, base) {
      var d :| d in inputs && Exposes(inputs, rest, job.smallest, base, d);
      var g := ExposureResurrects(v, upper, job, d);
    }
  }

  lemma ResurrectionExposes(v: Version, upper: set<Entry>, job: Job, d: Entry, g: FileMeta)
    requires Functional(VersionEntries(v) + upper) && Resurrects(v, upper, job, d, g)
    ensures d in InputEntries(job)
    ensures Exposes(InputEntries(job), RestEntries(v, job) + upper, job.smallest,
                    BaseKeys(job.inputVersion, job.level), d)
  {
    hide VersionEntries, InputEntries, Straddles, IsBase;
    FunctionalSubset(RestEntries(v, job) + upper, VersionEntries(v) + upper);
    ReadNewest(RestEntries(v, job) + upper, d.key.user, d.key.sequence, g.entries[0]);
  }

  lemma ExposureResurrects(v: Version, upper: set<Entry>, job: Job, d: Entry) returns (g: FileMeta)
    requires VersionOk(v) && JobOk(v, job)
    requires Functional(VersionEntries(v) + upper) && AllNewer(upper, VersionEntries(v))
    requires d in InputEntries(job)
    requires Exposes(InputEntries(job), RestEntries(v, job) + upper, job.smallest,
                     BaseKeys(job.inputVersion, job.level), d)
    ensures Resurrects(v, upper, job, d, g)
  {
    hide VersionOk, JobOk, VersionEntries, Functional, RestEntries, Straddles, IsBase;
    var rest := RestEntries(v, job) + upper;
    var u := d.key.user;
    EntriesBefore(v, job);
    assert rest <= VersionEntries(v) + upper;
    FunctionalSubset(rest, VersionEntries(v) + upper);
    var l, h := InputFileOf(v, job, d);
    var n :| IsNewest(rest, u, d.key.sequence, n);
    ReadNewest(rest, u, d.key.sequence, n);
    assert n !in upper;
    RestAre(v, job, n);
    var m: nat;
    m, g :| InLevel(v, m, g) && !IsInput(job, m, g) && n in g.entries;
    OlderIsStraddling(v, job, l, h, d, m, g, n);
    FirstIsNewest(v, upper, job, m, g, u, d.key.sequence, n);
  }

  lemma InputFileOf(v: Version, job: Job, d: Entry) returns (l: nat, h: FileMeta)
    requires JobOk(v, job) && d in InputEntries(job)
    ensures InLevel(v, l, h) && IsInput(job, l, h) && d in h.entries
  {
    hide VersionOk, Unshared, LeftOutNewer, Apart;
    h :| h in job.in0 + job.in1 && d in h.entries;
    l := if h in job.in0 then job.level else job.level + 1;
  }

  /** The first entry of a file that starts with the key is the newest one of the key in it. */
  lemma FirstIsNewest(v: Version, upper: set<Entry>, job: Job, m: nat, g: FileMeta, u: UserKey, s: nat, n: Entry)
    requires VersionOk(v) && InLevel(v, m, g) && !IsInput(job, m, g) && n in g.entries
    requires g.smallest.user == u && g.smallest.sequence < s
    requires IsNewest(RestEntries(v, job) + upper, u, s, n)
    requires Functional(RestEntries(v, job) + upper)
    ensures g.entries != [] && g.entries[0] == n
  {
    hide Functional, VersionEntries, RestEntries, LevelOrder, UniqueNumbers, SortedLevel;
    var first := g.entries[0];
    assert InRest(v, job, first);
    RestAre(v, job, first);
    EntryInRange(g, n);
    assert Visible(first, u, s);
    assert first.key.sequence <= n.key.sequence;
    assert first.key.sequence >= n.key.sequence;
    SameSequence(RestEntries(v, job) + upper, first, n);
  }

  lemma SameSequence(es: set<Entry>, x: Entry, y: Entry)
    requires Functional(es) && x in es && y in es && x.key.user == y.key.user && x.key.sequence == y.key.sequence
    ensures x == y
  {
  }

  /** A guard that can be read off the file metadata: without a straddling file all reads are kept. */
  lemma InstallKeepsReads(v: Version, upper: set<Entry>, job: Job, outputs: seq<FileMeta>, v': Version)
    requires VersionOk(v) && JobOk(v, job) && OutputsOk(v, job, outputs) && Replaced(v, job, outputs, v')
    requires Functional(VersionEntries(v) + upper) && AllNewer(upper, VersionEntries(v))
    requires forall g :: g in v[job.level + 1] ==> !Straddles(v, job, g)
    ensures SameReads(VersionEntries(v) + upper, VersionEntries(v') + upper, job.smallest)
  {
    hide VersionOk, JobOk, OutputsOk, Replaced, VersionEntries, Functional, AllNewer, SameReads, RestEntries;
    hide InputEntries;
    InstallKeepsReadsIff(v, upper, job, outputs, v');
  }

  // ---------- the split key, concretely ----------

  /** Level 2 holds key 1; level 3 holds key 1 and the deletion of key 2 in one file, and the deleted
      value of key 2 at the start of the next file. */
  const KEPT := Entry(InternalKey(1.0, 4, Value), [])
  const OLDER := Entry(InternalKey(1.0, 1, Value), [])
  const DELETION := Entry(InternalKey(2.0, 3, Deletion), [])
  const DELETED := Entry(InternalKey(2.0, 2, Value), [])
  const UPPER_FILE := FileMeta(6, 1, KEPT.key, KEPT.key, [KEPT])
  const INPUT_FILE := FileMeta(3, 1, OLDER.key, DELETION.key, [OLDER, DELETION])
  const NEXT_FILE := FileMeta(4, 1, DELETED.key, DELETED.key, [DELETED])
  const OUTPUT_FILE := FileMeta(7, 1, KEPT.key, KEPT.key, [KEPT])
  const SPLIT: Version := [[], [], [UPPER_FILE], [INPUT_FILE, NEXT_FILE], [], [], []]
  const SPLIT_JOB := Job(2, [UPPER_FILE], [INPUT_FILE], SPLIT, 4)
  const SPLIT_HULL := Range(Some(1.0), Some(1.0))
  const SPLIT_AFTER: Version := [[], [], [], [OUTPUT_FILE, NEXT_FILE], [], [], []]

  lemma SplitLevels(l: nat, f: FileMeta)
    ensures InLevel(SPLIT, l, f) <==> (l == 2 && f == UPPER_FILE) || (l == 3 && (f == INPUT_FILE || f == NEXT_FILE))
  {
    assert SPLIT[2][0] == UPPER_FILE && SPLIT[3][0] == INPUT_FILE && SPLIT[3][1] == NEXT_FILE;
  }

  lemma SplitEntries(e: Entry)
    ensures e in VersionEntries(SPLIT) <==> e == KEPT || e == OLDER || e == DELETION || e == DELETED
  {
    hide VersionEntries, InLevel;
    InVersion(SPLIT, e);
    SplitLevels(2, UPPER_FILE);
    SplitLevels(3, INPUT_FILE);
    SplitLevels(3, NEXT_FILE);
    if l: nat, f :| InLevel(SPLIT, l, f) && e in f.entries {
      SplitLevels(l, f);
    }
    assert INPUT_FILE.entries[0] == OLDER && INPUT_FILE.entries[1] == DELETION;
  }

  lemma SplitVersionOk()
    ensures VersionOk(SPLIT)
    ensures forall e :: e in VersionEntries(SPLIT) <==> e == KEPT || e == OLDER || e == DELETION || e == DELETED
  {
    hide VersionEntries;
    forall e ensures e in VersionEntries(SPLIT) <==> e == KEPT || e == OLDER || e == DELETION || e == DELETED {
      SplitEntries(e);
    }
    assert ValidFile(UPPER_FILE) && ValidFile(INPUT_FILE) && ValidFile(NEXT_FILE);
    SplitOrder();
  }

  lemma SplitOrder()
    ensures LevelOrder(SPLIT) && UniqueNumbers(SPLIT)
  {
    hide InLevel;
    forall l, f, m, g | InLevel(SPLIT, l, f) && InLevel(SPLIT, m, g)
      ensures SearchedBefore(l, f, m, g) ==> Newer(f, g)
      ensures f.number == g.number ==> l == m && f == g
    {
      SplitLevels(l, f);
      SplitLevels(m, g);
    }
  }

  lemma SplitReady()
    ensures Ready(SPLIT, 2, [UPPER_FILE], [INPUT_FILE], SPLIT_HULL)
  {
    assert [UPPER_FILE][0] == UPPER_FILE;
    assert [INPUT_FILE, NEXT_FILE][1..] == [NEXT_FILE];
    assert Selected([NEXT_FILE], SPLIT_HULL) == [];
  }

  /** Whatever outputs the compaction installs, a key that was deleted can be read again: key 2 is absent at the
      last sequence number before, and its deleted value is there afterwards. */
  lemma DeletedKeyReturns(outputs: seq<FileMeta>, v': Version)
    requires OutputsOk(SPLIT, SPLIT_JOB, outputs) && Replaced(SPLIT, SPLIT_JOB, outputs, v')
    ensures VersionOk(SPLIT) && Ready(SPLIT, 2, SPLIT_JOB.in0, SPLIT_JOB.in1, SPLIT_HULL)
    ensures Read(VersionEntries(SPLIT), 2.0, 4) == None
    ensures Read(VersionEntries(v'), 2.0, 4) == Some(DELETED.value)
  {
    hide OutputsOk, Replaced, VersionOk, Ready, JobOk, VersionEntries;
    SplitVersionOk();
    SplitReady();
    ReadyStartsJob(SPLIT, 2, [UPPER_FILE], [INPUT_FILE], SPLIT_HULL, 4);
    EntriesAfter(SPLIT, SPLIT_JOB, outputs, v');
    EntriesBefore(SPLIT, SPLIT_JOB);
    assert IsNewest(VersionEntries(SPLIT), 2.0, 4, DELETION);
    SplitFunctional();
    ReadNewest(VersionEntries(SPLIT), 2.0, 4, DELETION);
    SplitSurvivors();
    InstallSubset(outputs, v');
    assert DELETED in VersionEntries(v') by {
      assert InLevel(SPLIT, 3, NEXT_FILE) && DELETED in NEXT_FILE.entries && !IsInput(SPLIT_JOB, 3, NEXT_FILE);
      assert InRest(SPLIT, SPLIT_JOB, DELETED);
      RestAre(SPLIT, SPLIT_JOB, DELETED);
    }
    assert IsNewest(VersionEntries(v'), 2.0, 4, DELETED);
    ReadNewest(VersionEntries(v'), 2.0, 4, DELETED);
  }

  /** Such outputs and such a version: one file with what survives of key 1. */
  lemma SplitInstalled()
    ensures OutputsOk(SPLIT, SPLIT_JOB, [OUTPUT_FILE]) && Replaced(SPLIT, SPLIT_JOB, [OUTPUT_FILE], SPLIT_AFTER)
  {
    hide VersionEntries;
    assert SPLIT_JOB.in0 + SPLIT_JOB.in1 == [UPPER_FILE, INPUT_FILE];
    assert [UPPER_FILE, INPUT_FILE][0] == UPPER_FILE && [UPPER_FILE, INPUT_FILE][1] == INPUT_FILE
      && [OUTPUT_FILE][0] == OUTPUT_FILE;
    assert UPPER_FILE.entries[0] == KEPT && INPUT_FILE.entries[0] == OLDER && INPUT_FILE.entries[1] == DELETION
      && OUTPUT_FILE.entries[0] == KEPT;
    var inputs, base := InputEntries(SPLIT_JOB), BaseKeys(SPLIT, 2);
    EntrySetTwo(UPPER_FILE, INPUT_FILE);
    EntrySetOne(OUTPUT_FILE);
    assert forall e :: e in inputs <==> e == KEPT || e == OLDER || e == DELETION;
    assert IsBase(SPLIT, 2, 2.0);
    assert Hidden(inputs, 4, OLDER) && Obsolete(4, base, DELETION);
    assert EntrySet([OUTPUT_FILE]) == Survivors(inputs, 4, base);
    forall l, f | InLevel(SPLIT, l, f) ensures f.number != OUTPUT_FILE.number {
      SplitLevels(l, f);
    }
    assert ValidFile(OUTPUT_FILE) && SortedLevel([OUTPUT_FILE]);
    forall l: nat, f
      ensures InLevel(SPLIT_AFTER, l, f)
             <==> (InLevel(SPLIT, l, f) && !IsInput(SPLIT_JOB, l, f)) || (l == 3 && f in [OUTPUT_FILE])
    {
      SplitLevels(l, f);
      assert SPLIT_AFTER[3][0] == OUTPUT_FILE && SPLIT_AFTER[3][1] == NEXT_FILE;
    }
  }

  lemma EntrySetOne(f: FileMeta)
    ensures forall e :: e in EntrySet([f]) <==> e in f.entries
  {
    assert f in [f];
  }

  lemma EntrySetTwo(f: FileMeta, g: FileMeta)
    ensures forall e :: e in EntrySet([f, g]) <==> e in f.entries || e in g.entries
  {
    assert [f, g][0] == f && [f, g][1] == g;
  }

  lemma SplitFunctional()
    ensures Functional(VersionEntries(SPLIT))
  {
    SplitVersionOk();
  }

  lemma SplitSurvivors()
    ensures DELETION !in Survivors(InputEntries(SPLIT_JOB), 4, BaseKeys(SPLIT, 2))
    ensures DELETION !in RestEntries(SPLIT, SPLIT_JOB)
  {
    hide VersionEntries, RestEntries;
    assert IsBase(SPLIT, 2, 2.0);
    assert Obsolete(4, BaseKeys(SPLIT, 2), DELETION);
    assert !Survives(InputEntries(SPLIT_JOB), 4, BaseKeys(SPLIT, 2), DELETION);
    RestAre(SPLIT, SPLIT_JOB, DELETION);
    forall l, f | InLevel(SPLIT, l, f) && !IsInput(SPLIT_JOB, l, f) ensures DELETION !in f.entries {
      assert f == NEXT_FILE;
    }
  }

  lemma InstallSubset(outputs: seq<FileMeta>, v': Version)
    requires VersionEntries(v') == Survivors(InputEntries(SPLIT_JOB), 4, BaseKeys(SPLIT, 2))
             + RestEntries(SPLIT, SPLIT_JOB)
    requires VersionEntries(SPLIT) == InputEntries(SPLIT_JOB) + RestEntries(SPLIT, SPLIT_JOB)
    ensures VersionEntries(v') <= VersionEntries(SPLIT) && Functional(VersionEntries(v'))
  {
    hide VersionEntries, InputEntries, RestEntries;
    SplitFunctional();
    FunctionalSubset(VersionEntries(v'), VersionEntries(SPLIT));
  }
}
