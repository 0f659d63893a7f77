/** When a compaction's outputs keep clear of the files left out of the output level, wherever the loop cuts them
    (db/db_impl.cc DoCompactionWork, InstallCompactionResults). */
module Clearance {
  import opened InternalKeys
  import opened Meaning
  import opened Files
  import opened Versions
  import opened Runs
  import opened Compactions
  import opened Installing
  import opened Database

  /** What the loop will write: the entries of the inputs that survive the drop rules. */
  ghost function Remaining(job: Job): set<Entry> {
    Survivors(InputEntries(job), job.smallest, BaseKeys(job.inputVersion, job.level))
  }

  /** All survivors lie on one side of the file. */
  ghost predicate OneSide(job: Job, g: FileMeta) {
    || (forall x :: x in Remaining(job) ==> Less(g.largest, x.key))
    || (forall x :: x in Remaining(job) ==> Less(x.key, g.smallest))
  }

  /** No file of the output level left out of the job has survivors on both sides, or among its own keys. */
  ghost predicate SurvivorsClear(v: Version, job: Job) {
    forall g :: InLevel(v, job.level + 1, g) && g !in job.in1 ==> OneSide(job, g)
  }

  /** Outputs hold survivors only, their ends among them. */
  lemma OutputEnds(v: Version, job: Job, outputs: seq<FileMeta>, o: FileMeta)
    requires OutputsOk(v, job, outputs) && o in outputs
    ensures exists x, y :: x in Remaining(job) && y in Remaining(job) && o.smallest == x.key && o.largest == y.key
  {
    hide Survivors;
    var first, last := o.entries[0], o.entries[|o.entries| - 1];
    assert ValidFile(o) && first in EntrySet(outputs) && last in EntrySet(outputs);
  }

  /** A number above those of all files. */
  lemma NewNumber(v: Version) returns (n: nat)
    requires |v| == NUM_LEVELS
    ensures forall l, f :: InLevel(v, l, f) ==> f.number < n
  {
    n := 0;
    for l := 0 to |v|
      invariant forall m: nat, f :: m < l && InLevel(v, m, f) ==> f.number < n
    {
      for i := 0 to |v[l]|
        invariant forall m: nat, f :: m < l && InLevel(v, m, f) ==> f.number < n
        invariant forall j :: 0 <= j < i ==> v[l][j].number < n
      {
        n := if n <= v[l][i].number then v[l][i].number + 1 else n;
      }
    }
  }

  /** The survivors in order. */
  lemma InOrder(v: Version, job: Job) returns (kept: seq<Entry>)
    requires VersionOk(v) && JobOk(v, job)
    ensures Sorted(kept) && Contents(kept) == Remaining(job)
  {
    hide VersionOk, JobOk, MergeAll, InputRuns, Survives, Sorted, Survivors, BaseKeys, Kept;
    MergedInput(v, job);
    var input, base := MergeAll(InputRuns(job)), BaseKeys(job.inputVersion, job.level);
    kept := Kept(input, |input|, job.smallest, base);
    KeptSorted(input, |input|, job.smallest, base);
    KeptAre(input, |input|, job.smallest, base);
    assert input[..|input|] == input;
    forall e ensures e in kept <==> e in Remaining(job) {
      SurvivorIs(InputEntries(job), job.smallest, base, e);
    }
  }

  /** The loop may write all survivors to one file. */
  lemma OneOutput(v: Version, job: Job) returns (f: FileMeta)
    requires VersionOk(v) && JobOk(v, job) && Remaining(job) != {}
    ensures OutputsOk(v, job, [f]) && Contents(f.entries) == Remaining(job) && ValidFile(f)
  {
    hide VersionOk, JobOk, Sorted, Survivors, BaseKeys;
    var kept := InOrder(v, job);
    assert |v| == NUM_LEVELS by { Levels(v); }
    var n := NewNumber(v);
    f := FileMeta(n, 0, kept[0].key, kept[|kept| - 1].key, kept);
    assert Bounded(kept, MAX_SEQUENCE) by { InputsBounded(v, job); }
    EntrySetOfOne(f);
    assert [f][0] == f;
  }

  lemma Levels(v: Version)
    requires VersionOk(v)
    ensures |v| == NUM_LEVELS
  {
  }

  lemma SurvivorIs(inputs: set<Entry>, smallest: nat, base: iset<UserKey>, e: Entry)
    ensures e in Survivors(inputs, smallest, base) <==> e in inputs && Survives(inputs, smallest, base, e)
  {
  }

  lemma EntrySetOfOne(f: FileMeta)
    ensures EntrySet([f]) == Contents(f.entries)
  {
    assert forall g :: g in [f] <==> g == f;
  }

  lemma InputsBounded(v: Version, job: Job)
    requires VersionOk(v) && JobOk(v, job)
    ensures forall e :: e in InputEntries(job) ==> e.key.sequence <= MAX_SEQUENCE
  {
    hide VersionEntries, Functional, LevelOrder, UniqueNumbers, Newer, Unshared, SortedLevel, Sorted;
    forall e | e in InputEntries(job) ensures e.key.sequence <= MAX_SEQUENCE {
      var f :| f in job.in0 + job.in1 && e in f.entries;
      assert ValidFile(f) by {
        assert f in v[job.level] || f in v[job.level + 1];
      }
    }
  }

  /** Whatever the loop writes, and wherever it cuts, its outputs keep clear of the files left out of the output level
      if and only if for each of these all survivors are before it or all are behind it. */
  lemma EveryCutClearIff(v: Version, job: Job)
    requires VersionOk(v) && JobOk(v, job)
    ensures SurvivorsClear(v, job) <==> forall outputs :: OutputsOk(v, job, outputs) ==> OutputsClear(v, job, outputs)
  {
    hide VersionOk, JobOk, OutputsOk, Remaining, Less;
    if SurvivorsClear(v, job) {
      forall outputs | OutputsOk(v, job, outputs) ensures OutputsClear(v, job, outputs) {
        forall g, o: FileMeta | InLevel(v, job.level + 1, g) && g !in job.in1 && o in outputs
          ensures Less(g.largest, o.smallest) || Less(o.largest, g.smallest)
        {
          OutputEnds(v, job, outputs, o);
          assert OneSide(job, g);
        }
      }
    }
    if (forall outputs :: OutputsOk(v, job, outputs) ==> OutputsClear(v, job, outputs)) && Remaining(job) != {} {
      var f := OneOutput(v, job);
      assert OutputsClear(v, job, [f]);
      forall g | InLevel(v, job.level + 1, g) && g !in job.in1 ensures OneSide(job, g) {
        assert f in [f];
        WholeFileSide(job, f, g);
      }
    }
  }

  lemma WholeFileSide(job: Job, f: FileMeta, g: FileMeta)
    requires ValidFile(f) && Contents(f.entries) == Remaining(job)
    requires Less(g.largest, f.smallest) || Less(f.largest, g.smallest)
    ensures OneSide(job, g)
  {
    hide Remaining;
    forall x | x in Remaining(job)
      ensures Less(g.largest, f.smallest) ==> Less(g.largest, x.key)
      ensures Less(f.largest, g.smallest) ==> Less(x.key, g.smallest)
    {
      EntryInRange(f, x);
    }
  }

  /** In particular, room among the inputs is enough. */
  lemma RoomIsClear(v: Version, job: Job)
    requires VersionOk(v) && JobOk(v, job) && RoomLeft(v, job)
    ensures SurvivorsClear(v, job)
  {
    hide VersionOk, JobOk, OutputsOk, OutputsClear, RoomLeft, SurvivorsClear;
    forall outputs | OutputsOk(v, job, outputs) ensures OutputsClear(v, job, outputs) {
      assert OutputsFit(v, job, outputs) by { OutputsOkFit(v, job, outputs); }
      RoomKeepsClear(v, job, outputs);
    }
    EveryCutClearIff(v, job);
  }

  lemma OutputsOkFit(v: Version, job: Job, outputs: seq<FileMeta>)
    requires OutputsOk(v, job, outputs)
    ensures OutputsFit(v, job, outputs)
  {
    hide OutputsFit, Survivors;
  }

  /** So whatever the loop writes, installing it keeps the level order if and only if the survivors are clear; the
      condition can be checked before the loop, from its inputs and the version. */
  lemma EveryInstallKeepsOrder(v: Version, job: Job)
    requires VersionOk(v) && JobOk(v, job)
    ensures SurvivorsClear(v, job) ==>
              forall outputs, v' :: OutputsOk(v, job, outputs) && Replaced(v, job, outputs, v') ==> VersionOk(v')
    ensures !SurvivorsClear(v, job) ==>
              exists outputs :: && OutputsOk(v, job, outputs)
                                && forall v' :: Replaced(v, job, outputs, v') ==> !VersionOk(v')
  {
    hide VersionOk, JobOk, OutputsOk, OutputsClear, SurvivorsClear, Replaced;
    EveryCutClearIff(v, job);
    forall outputs | OutputsOk(v, job, outputs)
      ensures forall v' :: Replaced(v, job, outputs, v') ==> (VersionOk(v') <==> OutputsClear(v, job, outputs))
    {
      forall v' | Replaced(v, job, outputs, v') ensures VersionOk(v') <==> OutputsClear(v, job, outputs) {
        OutputsOkFit(v, job, outputs);
        InstallKeepsOrderIff(v, job, outputs, v');
      }
    }
  }
}
