/** Placing a flushed memtable and moving a file down (db/version_set.cc PickLevelForMemTableOutput,
    db/db_impl.cc WriteLevel0Table and the trivial move of BackgroundCompaction). */
module Flushing {
  import opened InternalKeys
  import opened Meaning
  import opened Files
  import opened Versions
  import opened InputSelection
  import opened Runs
  import opened Compactions
  import opened Edits
  import opened Installing
  import opened CompactionMeaning

  const MAX_MEM_COMPACT_LEVEL: nat := 2

  /** No file at the level or above it overlaps the new file; level 0 takes any file. */
  ghost predicate PlacedClear(v: Version, level: nat, f: FileMeta) {
    level == 0 || forall l: nat, g :: l <= level && InLevel(v, l, g) ==> Apart(f, g)
  }

  /** Why a flushed memtable goes no deeper: level 0 overlaps it, or the next level does, or too much of the one
      after. */
  ghost predicate GoesNoDeeper(v: Version, range: Range, level: nat, maxOverlap: nat)
    requires |v| == NUM_LEVELS && level < MAX_MEM_COMPACT_LEVEL
  {
    || (level == 0 && exists g :: g in v[0] && Overlaps(g, range))
    || (exists g :: g in v[level + 1] && Overlaps(g, range))
    || TotalFileSize(Selected(v[level + 2], range)) > maxOverlap
  }

  /** The first level, or the deepest allowed, that the range goes no deeper from. */
  ghost predicate PlacedByRule(v: Version, range: Range, level: nat, maxOverlap: nat)
    requires |v| == NUM_LEVELS
  {
    && level <= MAX_MEM_COMPACT_LEVEL
    && (forall l: nat :: l < level ==> !GoesNoDeeper(v, range, l, maxOverlap))
    && (level < MAX_MEM_COMPACT_LEVEL ==> GoesNoDeeper(v, range, level, maxOverlap))
  }

  /** A file placed by the rule above level 0 meets no file on its way. */
  lemma PlacedMeetsNone(v: Version, lo: UserKey, hi: UserKey, level: nat, maxOverlap: nat)
    requires |v| == NUM_LEVELS && PlacedByRule(v, Range(Some(lo), Some(hi)), level, maxOverlap)
    ensures level <= MAX_MEM_COMPACT_LEVEL
    ensures level > 0 ==> forall l: nat, g :: l <= level && InLevel(v, l, g) ==>
              g.largest.user < lo || hi < g.smallest.user
  {
    hide Selected, TotalFileSize;
    if level > 0 {
      var range := Range(Some(lo), Some(hi));
      assert !GoesNoDeeper(v, range, 0, maxOverlap);
      forall l: nat, g | l <= level && InLevel(v, l, g) ensures !Overlaps(g, range) {
        assert l > 0 ==> !GoesNoDeeper(v, range, l - 1, maxOverlap);
      }
    }
  }

  /** How deep a flushed memtable with this key range may go. */
  method PickLevelForMemTableOutput(v: Version, lo: UserKey, hi: UserKey, maxOverlap: nat) returns (level: nat)
    requires VersionOk(v)
    ensures PlacedByRule(v, Range(Some(lo), Some(hi)), level, maxOverlap)
  {
    hide LevelOrder, UniqueNumbers, Functional, VersionEntries, ValidFile;
    var range := Range(Some(lo), Some(hi));
    level := 0;
    var overlap := SomeFileOverlapsRange(false, v[0], range);
    if !overlap {
      while level < MAX_MEM_COMPACT_LEVEL
        invariant level <= MAX_MEM_COMPACT_LEVEL
        invariant forall g :: g in v[0] ==> !Overlaps(g, range)
        invariant forall l: nat :: l < level ==> !GoesNoDeeper(v, range, l, maxOverlap)
      {
        overlap := SomeFileOverlapsRange(true, v[level + 1], range);
        if overlap {
          break;
        }
        if level + 2 < NUM_LEVELS {
          ghost var r;
          var overlaps;
          overlaps, r := GetOverlappingInputs(false, v[level + 2], range);
          if TotalFileSize(overlaps) > maxOverlap {
            break;
          }
        }
        level := level + 1;
      }
    }
  }

  function FlushEdit(level: nat, f: FileMeta): VersionEdit {
    VersionEdit({}, [(level, f)])
  }

  /** The file was added at the level, nothing else changed. */
  ghost predicate Added(v: Version, level: nat, f: FileMeta, v': Version) {
    && AllOrdered(v')
    && forall l, g :: InLevel(v', l, g) <==> InLevel(v, l, g) || (l == level && g == f)
  }

  lemma EditAddsFile(v: Version, level: nat, f: FileMeta, v': Version)
    requires Applied(v, FlushEdit(level, f), v') && level < NUM_LEVELS
    ensures Added(v, level, f, v')
  {
    hide Ordered;
    var edit := FlushEdit(level, f);
    forall l: nat, g ensures InLevel(v', l, g) <==> InLevel(v, l, g) || (l == level && g == f) {
      assert AddsAt(edit, l, g) <==> l == level && g == f;
      if l < NUM_LEVELS {
        assert LevelApplied(v[l], edit, l, v'[l]);
      }
    }
    forall l | 0 <= l < NUM_LEVELS ensures Ordered(v'[l]) {
      assert LevelApplied(v[l], edit, l, v'[l]);
    }
  }

  lemma EntriesAdded(v: Version, level: nat, f: FileMeta, v': Version)
    requires Added(v, level, f, v')
    ensures VersionEntries(v') == VersionEntries(v) + Contents(f.entries)
  {
    hide VersionEntries, AllOrdered;
    forall e ensures e in VersionEntries(v') <==> e in VersionEntries(v) + Contents(f.entries) {
      InVersion(v, e);
      InVersion(v', e);
      if e in f.entries {
        assert InLevel(v', level, f);
      }
      if l: nat, g :| InLevel(v, l, g) && e in g.entries {
        assert InLevel(v', l, g);
      }
    }
  }

  /** A flush that the placement rule allows keeps the level order. */
  lemma FlushKeepsOrder(v: Version, level: nat, f: FileMeta, v': Version)
    requires VersionOk(v) && ValidFile(f) && level < NUM_LEVELS && PlacedClear(v, level, f) && Added(v, level, f, v')
    requires forall l, g :: InLevel(v, l, g) ==> g.number < f.number
    requires AllNewer(Contents(f.entries), VersionEntries(v))
    requires Functional(VersionEntries(v) + Contents(f.entries))
    ensures VersionOk(v')
  {
    hide VersionEntries, Functional, Newer, Sorted, Bounded, AllNewer, PlacedClear, ValidFile;
    EntriesAdded(v, level, f, v');
    OrderedDistinct(v'[0]);
    forall l | 0 <= l < NUM_LEVELS ensures ValidFiles(v'[l]) {
      forall g | g in v'[l] ensures ValidFile(g) {
        assert InLevel(v', l, g);
      }
    }
    forall l | 1 <= l < NUM_LEVELS ensures SortedLevel(v'[l]) {
      FlushKeepsSorted(v, level, f, v', l);
    }
    forall l, g, m, h | InLevel(v', l, g) && InLevel(v', m, h) && SearchedBefore(l, g, m, h) ensures Newer(g, h) {
      FlushKeepsNewer(v, level, f, v', l, g, m, h);
    }
  }

  lemma FlushKeepsSorted(v: Version, level: nat, f: FileMeta, v': Version, l: nat)
    requires VersionOk(v) && ValidFile(f) && PlacedClear(v, level, f) && Added(v, level, f, v')
    requires 1 <= l < NUM_LEVELS && ValidFiles(v'[l])
    ensures SortedLevel(v'[l])
  {
    hide VersionEntries, Functional, Newer, LevelOrder, UniqueNumbers, Sorted, Bounded;
    forall g, h | g in v'[l] && h in v'[l] && g != h
      ensures Less(g.largest, h.smallest) || Less(h.largest, g.smallest)
    {
      assert InLevel(v', l, g) && InLevel(v', l, h);
      if InLevel(v, l, g) && InLevel(v, l, h) {
        SortedOrApart(v[l], g, h);
      } else {
        assert Apart(g, h);
      }
    }
    SortedFromApart(v'[l]);
  }

  lemma FlushKeepsNewer(v: Version, level: nat, f: FileMeta, v': Version, l: nat, g: FileMeta, m: nat, h: FileMeta)
    requires VersionOk(v) && ValidFile(f) && PlacedClear(v, level, f) && Added(v, level, f, v')
    requires forall k, x :: InLevel(v, k, x) ==> x.number < f.number
    requires AllNewer(Contents(f.entries), VersionEntries(v))
    requires InLevel(v', l, g) && InLevel(v', m, h) && SearchedBefore(l, g, m, h)
    ensures Newer(g, h)
  {
    hide VersionEntries, Functional, UniqueNumbers, SortedLevel, Sorted, Bounded, AllOrdered;
    if InLevel(v, l, g) && InLevel(v, m, h) {
    } else if l == level && g == f && InLevel(v, m, h) {
      forall x, y | x in f.entries && y in h.entries ensures x.key.sequence > y.key.sequence {
        InVersion(v, y);
        assert x in Contents(f.entries) && y in VersionEntries(v);
      }
    } else if InLevel(v, l, g) {
      assert h == f && m == level && l < level;
      ApartIsNewer(g, f);
    } else {
      assert false;
    }
  }

  /** A running job survives any flush; a flush that does not land among its inputs leaves room for its outputs. */
  lemma FlushKeepsJob(v: Version, level: nat, f: FileMeta, v': Version, job: Job)
    requires VersionOk(v) && JobOk(v, job) && ValidFile(f) && PlacedClear(v, level, f) && Added(v, level, f, v')
    requires AllNewer(Contents(f.entries), VersionEntries(v))
    requires forall l, g :: InLevel(v, l, g) ==> g.number < f.number
    ensures JobOk(v', job)
    ensures RoomLeft(v, job) && (level == job.level + 1 ==> Room(job, f)) ==> RoomLeft(v', job)
  {
    hide VersionEntries, Functional, UniqueNumbers, LevelOrder, SortedLevel, Sorted, Bounded, Ordered, Newer, AllNewer;
    hide PlacedClear, ValidFile, Room, ShareUser;
    assert forall l, g :: InLevel(v, l, g) ==> InLevel(v', l, g);
    forall g | g in job.in0 ensures g in v'[job.level] {
      assert InLevel(v, job.level, g);
      assert InLevel(v', job.level, g);
    }
    forall g | g in job.in1 ensures g in v'[job.level + 1] {
      assert InLevel(v, job.level + 1, g);
      assert InLevel(v', job.level + 1, g);
    }
    forall g, h | g in job.in0 && h in v'[job.level] && h !in job.in0 ensures Newer(h, g) {
      assert InLevel(v', job.level, h) && InLevel(v, job.level, g);
      if !InLevel(v, job.level, h) {
        FlushNewerThanFile(v, f, job.level, g);
      }
    }
    forall h | h in v'[job.level + 1] && h !in job.in1 ensures forall g :: g in job.in0 ==> Apart(g, h) {
      assert InLevel(v', job.level + 1, h);
      forall g | g in job.in0 ensures Apart(g, h) {
        if !InLevel(v, job.level + 1, h) {
          ClearOfFile(v, level, f, job.level, g);
        }
      }
    }
    forall l, g | job.level + 2 <= l && InLevel(v', l, g) ensures InLevel(job.inputVersion, l, g) || Unshared(job, g) {
      if !InLevel(v, l, g) {
        forall h | h in job.in0 + job.in1 ensures !ShareUser(h, f) {
          var m := if h in job.in0 then job.level else job.level + 1;
          assert InLevel(v, m, h);
          ClearOfFile(v, level, f, m, h);
        }
      }
    }
  }

  lemma FlushNewerThanFile(v: Version, f: FileMeta, l: nat, g: FileMeta)
    requires AllNewer(Contents(f.entries), VersionEntries(v)) && InLevel(v, l, g)
    ensures Newer(f, g)
  {
    hide VersionEntries;
    forall x, y | x in f.entries && y in g.entries ensures x.key.sequence > y.key.sequence {
      InVersion(v, y);
      assert x in Contents(f.entries);
    }
  }

  lemma ClearOfFile(v: Version, level: nat, f: FileMeta, l: nat, g: FileMeta)
    requires PlacedClear(v, level, f) && 0 < level && l <= level && InLevel(v, l, g)
    requires ValidFile(f) && ValidFile(g)
    ensures Apart(f, g) && Apart(g, f) && !ShareUser(g, f)
  {
    if x, y :| x in g.entries && y in f.entries && x.key.user == y.key.user {
      EntryInRange(g, x);
      EntryInRange(f, y);
    }
  }

  // ---------- trivial move ----------

  /** A file with nothing to merge with moves down one level; no entry changes. */
  lemma MoveKeepsOrder(v: Version, level: nat, f: FileMeta, hull: Range, v': Version)
    requires VersionOk(v) && Ready(v, level, [f], [], hull)
    requires Applied(v, CompactionEdit(Job(level, [f], [], v, 0), [f]), v')
    ensures VersionOk(v') && VersionEntries(v') == VersionEntries(v)
    ensures AllOrdered(v')
    ensures forall l, g :: InLevel(v', l, g) ==> exists m :: InLevel(v, m, g)
  {
    hide VersionEntries, Functional, Newer, LevelOrder, SortedLevel, Room, Unshared, LeftOutNewer;
    var job := Job(level, [f], [], v, 0);
    ReadyStartsJob(v, level, [f], [], hull, 0);
    EditReplaces(v, job, [f], v');
    assert InLevel(v, level, f) by { assert f in [f]; }
    assert OutputsFit(v, job, [f]) by {
      assert job.in0 + job.in1 == [f];
      assert SortedLevel([f]) by { OneFileSorted(f); }
    }
    RoomKeepsClear(v, job, [f]);
    InstallKeepsOrder(v, job, [f], v');
    forall e ensures e in VersionEntries(v') <==> e in VersionEntries(v) {
      InVersion(v, e);
      InVersion(v', e);
      if l: nat, g :| InLevel(v, l, g) && e in g.entries {
        assert InLevel(v', if IsInput(job, l, g) then level + 1 else l, g);
      }
    }
  }

  lemma OneFileSorted(f: FileMeta)
    ensures SortedLevel([f])
  {
  }

  // ---------- a flush among the inputs, concretely ----------

  /** Two files of level 1 are compacted into two of level 2 while a memtable with a key between them is flushed. */
  const OLD_ONE := Entry(InternalKey(1.0, 1, Value), [])
  const OLD_THREE := Entry(InternalKey(3.0, 2, Value), [])
  const ONE := Entry(InternalKey(1.0, 3, Value), [])
  const THREE := Entry(InternalKey(3.0, 4, Value), [])
  const BETWEEN := Entry(InternalKey(2.0, 5, Value), [])
  const OLD_ONE_FILE := FileMeta(2, 1, OLD_ONE.key, OLD_ONE.key, [OLD_ONE])
  const OLD_THREE_FILE := FileMeta(4, 1, OLD_THREE.key, OLD_THREE.key, [OLD_THREE])
  const ONE_FILE := FileMeta(6, 1, ONE.key, ONE.key, [ONE])
  const THREE_FILE := FileMeta(8, 1, THREE.key, THREE.key, [THREE])
  const BETWEEN_FILE := FileMeta(10, 1, BETWEEN.key, BETWEEN.key, [BETWEEN])
  const JOINED_FILE := FileMeta(11, 1, ONE.key, THREE.key, [ONE, THREE])
  const GAP: Version := [[], [ONE_FILE, THREE_FILE], [OLD_ONE_FILE, OLD_THREE_FILE], [], [], [], []]
  const GAP_JOB := Job(1, [ONE_FILE, THREE_FILE], [OLD_ONE_FILE, OLD_THREE_FILE], GAP, 4)
  const GAP_HULL := Range(Some(1.0), Some(3.0))
  const GAP_FLUSHED: Version :=
    [[], [ONE_FILE, THREE_FILE], [OLD_ONE_FILE, BETWEEN_FILE, OLD_THREE_FILE], [], [], [], []]
  const OVERLAPPING: Version := [[], [], [JOINED_FILE, BETWEEN_FILE], [], [], [], []]

  lemma GapLevels(l: nat, f: FileMeta)
    ensures InLevel(GAP, l, f) <==>
              (l == 1 && (f == ONE_FILE || f == THREE_FILE))
              || (l == 2 && (f == OLD_ONE_FILE || f == OLD_THREE_FILE))
    ensures InLevel(GAP_FLUSHED, l, f) <==> InLevel(GAP, l, f) || (l == 2 && f == BETWEEN_FILE)
    ensures InLevel(OVERLAPPING, l, f) <==> l == 2 && (f == JOINED_FILE || f == BETWEEN_FILE)
  {
    assert GAP[1][0] == ONE_FILE && GAP[1][1] == THREE_FILE && GAP[2][0] == OLD_ONE_FILE && GAP[2][1] == OLD_THREE_FILE;
    assert GAP_FLUSHED[1] == GAP[1];
    assert GAP_FLUSHED[2][0] == OLD_ONE_FILE && GAP_FLUSHED[2][1] == BETWEEN_FILE
      && GAP_FLUSHED[2][2] == OLD_THREE_FILE;
    assert OVERLAPPING[2][0] == JOINED_FILE && OVERLAPPING[2][1] == BETWEEN_FILE;
  }

  lemma GapVersionOk()
    ensures VersionOk(GAP)
    ensures forall e :: e in VersionEntries(GAP) <==> e == OLD_ONE || e == OLD_THREE || e == ONE || e == THREE
  {
    hide VersionEntries, InLevel;
    forall e ensures e in VersionEntries(GAP) <==> e == OLD_ONE || e == OLD_THREE || e == ONE || e == THREE {
      InVersion(GAP, e);
      GapLevels(1, ONE_FILE);
      GapLevels(1, THREE_FILE);
      GapLevels(2, OLD_ONE_FILE);
      GapLevels(2, OLD_THREE_FILE);
      if l: nat, f :| InLevel(GAP, l, f) && e in f.entries {
        GapLevels(l, f);
      }
    }
    assert ValidFile(ONE_FILE) && ValidFile(THREE_FILE) && ValidFile(OLD_ONE_FILE) && ValidFile(OLD_THREE_FILE);
    forall l, f, m, g | InLevel(GAP, l, f) && InLevel(GAP, m, g)
      ensures SearchedBefore(l, f, m, g) ==> Newer(f, g)
      ensures f.number == g.number ==> l == m && f == g
    {
      GapLevels(l, f);
      GapLevels(m, g);
    }
  }

  lemma GapReady()
    ensures Ready(GAP, 1, GAP_JOB.in0, GAP_JOB.in1, GAP_HULL)
  {
    assert GAP_JOB.in0[0] == ONE_FILE && GAP_JOB.in0[1] == THREE_FILE;
    assert [OLD_ONE_FILE, OLD_THREE_FILE][1..] == [OLD_THREE_FILE];
    assert Selected([OLD_THREE_FILE], GAP_HULL) == [OLD_THREE_FILE];
  }

  /** The placement rule sends the memtable to level 2, since nothing overlaps it down to there. */
  lemma GapPlaced()
    ensures PlacedClear(GAP, 2, BETWEEN_FILE) && Added(GAP, 2, BETWEEN_FILE, GAP_FLUSHED)
  {
    forall l: nat, g
      ensures l <= 2 && InLevel(GAP, l, g) ==> Apart(BETWEEN_FILE, g)
      ensures InLevel(GAP_FLUSHED, l, g) <==> InLevel(GAP, l, g) || (l == 2 && g == BETWEEN_FILE)
    {
      GapLevels(l, g);
    }
  }

  lemma GapFlush()
    ensures VersionOk(GAP_FLUSHED) && JobOk(GAP_FLUSHED, GAP_JOB)
  {
    hide VersionOk, JobOk, VersionEntries, PlacedClear, Added, Ready;
    GapVersionOk();
    GapReady();
    GapPlaced();
    ReadyStartsJob(GAP, 1, GAP_JOB.in0, GAP_JOB.in1, GAP_HULL, 4);
    assert ValidFile(BETWEEN_FILE);
    forall l, g | InLevel(GAP, l, g) ensures g.number < BETWEEN_FILE.number {
      GapLevels(l, g);
    }
    assert forall e :: e in Contents(BETWEEN_FILE.entries) <==> e == BETWEEN;
    FlushKeepsOrder(GAP, 2, BETWEEN_FILE, GAP_FLUSHED);
    FlushKeepsJob(GAP, 2, BETWEEN_FILE, GAP_FLUSHED, GAP_JOB);
  }

  lemma GapOutputs()
    ensures OutputsOk(GAP_FLUSHED, GAP_JOB, [JOINED_FILE])
  {
    hide VersionEntries;
    var inputs, base := InputEntries(GAP_JOB), BaseKeys(GAP, 1);
    GapInputs();
    EntrySetOne(JOINED_FILE);
    assert JOINED_FILE.entries[0] == ONE && JOINED_FILE.entries[1] == THREE;
    assert Hidden(inputs, 4, OLD_ONE) && Hidden(inputs, 4, OLD_THREE);
    assert Survives(inputs, 4, base, ONE) && Survives(inputs, 4, base, THREE);
    assert EntrySet([JOINED_FILE]) == Survivors(inputs, 4, base);
    OneFileSorted(JOINED_FILE);
    forall l, f | InLevel(GAP_FLUSHED, l, f) ensures f.number != JOINED_FILE.number {
      GapLevels(l, f);
    }
  }

  lemma GapInputs()
    ensures forall e :: e in InputEntries(GAP_JOB) <==> e == ONE || e == THREE || e == OLD_ONE || e == OLD_THREE
  {
    var files := GAP_JOB.in0 + GAP_JOB.in1;
    assert files[0] == ONE_FILE && files[1] == THREE_FILE && files[2] == OLD_ONE_FILE && files[3] == OLD_THREE_FILE;
    assert |files| == 4;
    forall e ensures e in EntrySet(files) <==> e == ONE || e == THREE || e == OLD_ONE || e == OLD_THREE {
      assert ONE in files[0].entries && THREE in files[1].entries && OLD_ONE in files[2].entries
        && OLD_THREE in files[3].entries;
    }
  }

  lemma GapInstalled()
    ensures Replaced(GAP_FLUSHED, GAP_JOB, [JOINED_FILE], OVERLAPPING)
  {
    assert [JOINED_FILE][0] == JOINED_FILE;
    forall l: nat, f
      ensures InLevel(OVERLAPPING, l, f)
             <==> (InLevel(GAP_FLUSHED, l, f) && !IsInput(GAP_JOB, l, f)) || (l == 2 && f in [JOINED_FILE])
    {
      GapLevels(l, f);
      assert GAP_JOB.in0[0] == ONE_FILE && GAP_JOB.in0[1] == THREE_FILE;
      assert GAP_JOB.in1[0] == OLD_ONE_FILE && GAP_JOB.in1[1] == OLD_THREE_FILE;
    }
  }

  /** The placement rule allows a flush during a compaction after which the two files of the output level
      overlap: each step is the one the code takes, and the resulting level is no longer sorted. */
  lemma FlushAmongInputs()
    ensures VersionOk(GAP) && Ready(GAP, 1, GAP_JOB.in0, GAP_JOB.in1, GAP_HULL)
    ensures PlacedClear(GAP, 2, BETWEEN_FILE) && Added(GAP, 2, BETWEEN_FILE, GAP_FLUSHED)
    ensures VersionOk(GAP_FLUSHED) && JobOk(GAP_FLUSHED, GAP_JOB)
    ensures OutputsOk(GAP_FLUSHED, GAP_JOB, [JOINED_FILE]) && Replaced(GAP_FLUSHED, GAP_JOB, [JOINED_FILE], OVERLAPPING)
    ensures !VersionOk(OVERLAPPING)
  {
    hide VersionOk, JobOk, OutputsFit, Survivors, Replaced, VersionEntries, Ready, Added, PlacedClear, Functional;
    GapVersionOk();
    GapReady();
    GapPlaced();
    GapFlush();
    GapOutputs();
    GapInstalled();
    InstallKeepsOrderIff(GAP_FLUSHED, GAP_JOB, [JOINED_FILE], OVERLAPPING);
    GapLevels(2, BETWEEN_FILE);
    assert JOINED_FILE in [JOINED_FILE];
  }
}
