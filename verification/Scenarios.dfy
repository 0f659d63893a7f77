/** Runs from the empty database that lead to the two compactions the hypotheses of the engine exclude. */
module Scenarios {
  import opened InternalKeys
  import opened Meaning
  import opened Files
  import opened Versions
  import opened InputSelection
  import opened Runs
  import opened Compactions
  import opened Edits
  import opened Installing
  import opened CompactionMeaning
  import opened Flushing
  import opened Engine
  import opened EngineInvariant

  ghost predicate Reachable(st: State) {
    exists run, steps :: IsRun(run, steps) && run[|steps|] == st
  }

  lemma StartReached()
    ensures Reachable(EMPTY)
  {
    var run, steps := [EMPTY], [];
    assert IsRun(run, steps) && run[|steps|] == EMPTY;
  }

  lemma StepReached(st: State, step: Step, st': State)
    requires Reachable(st) && Next(st, step, st')
    ensures Reachable(st')
  {
    hide Next;
    var run, steps :| IsRun(run, steps) && run[|steps|] == st;
    var run', steps' := run + [st'], steps + [step];
    forall i | 0 <= i < |steps'| ensures Next(run'[i], steps'[i], run'[i + 1]) {
      if i < |steps| {
        assert Next(run[i], steps[i], run[i + 1]);
      }
    }
    assert IsRun(run', steps') && run'[|steps'|] == st';
  }

  /** A memtable after some more operations. */
  function InsertAll(mem: seq<Entry>, ops: seq<Op>, n: nat): seq<Entry> {
    if ops == [] then mem
    else MemInsert(InsertAll(mem, ops[..|ops| - 1], n), EntryOf(ops[|ops| - 1], n + |ops|))
  }

  lemma {:induction false} InsertsReached(st: State, ops: seq<Op>, k: nat)
    requires Reachable(st.(inflight := Some(Group(ops, 0)))) && k <= |ops|
    ensures Reachable(st.(mem := InsertAll(st.mem, ops[..k], |st.history|), inflight := Some(Group(ops, k))))
    decreases k
  {
    hide Reachable, MemInsert;
    if k == 0 {
      assert st.(mem := InsertAll(st.mem, ops[..0], |st.history|), inflight := Some(Group(ops, 0)))
        == st.(inflight := Some(Group(ops, 0)));
    } else {
      InsertsReached(st, ops, k - 1);
      assert ops[..k][..k - 1] == ops[..k - 1];
      StepReached(st.(mem := InsertAll(st.mem, ops[..k - 1], |st.history|), inflight := Some(Group(ops, k - 1))),
                  InsertOne,
                  st.(mem := InsertAll(st.mem, ops[..k], |st.history|), inflight := Some(Group(ops, k))));
    }
  }

  /** A write of some operations. */
  lemma WriteReached(st: State, ops: seq<Op>)
    requires Reachable(st) && st.inflight.None? && |st.history| + |ops| < MAX_SEQUENCE
    ensures Reachable(st.(history := st.history + ops, mem := InsertAll(st.mem, ops, |st.history|)))
  {
    hide Reachable, InsertAll, MemInsert, Ready, OutputsOk, OutputsClear, Replaced, NoResurrection, Added, PlacedClear;
    hide ValidFile;
    StepReached(st, BeginWrite(ops), st.(inflight := Some(Group(ops, 0))));
    InsertsReached(st, ops, |ops|);
    assert ops[..|ops|] == ops;
    StepReached(st.(mem := InsertAll(st.mem, ops, |st.history|), inflight := Some(Group(ops, |ops|))), Publish,
                st.(history := st.history + ops, mem := InsertAll(st.mem, ops, |st.history|)));
  }

  /** The level the placement rule picks for a file: the deepest, or one in front of a level that overlaps. */
  ghost predicate Picked(v: Version, level: nat, f: FileMeta) {
    && |v| == NUM_LEVELS && level <= MAX_MEM_COMPACT_LEVEL && PlacedClear(v, level, f)
    && (level == MAX_MEM_COMPACT_LEVEL || exists g :: g in v[level + 1] && !Apart(f, g))
  }

  /** The memtable is switched out and flushed to the level picked. */
  lemma FlushReached(st: State, level: nat, f: FileMeta, v: Version)
    requires Reachable(st) && st.inflight.None? && st.imm.None? && st.mem != []
    requires f.number == st.nextFile + 1 && f.entries == st.mem && ValidFile(f)
    requires Picked(st.version, level, f) && Added(st.version, level, f, v)
    ensures Reachable(st.(mem := [], version := v, nextFile := st.nextFile + 2))
  {
    hide Reachable, ValidFile, Added, PlacedClear;
    var switched := st.(imm := Some(st.mem), mem := [], nextFile := st.nextFile + 1);
    StepReached(st, SwitchMemTable, switched);
    StepReached(switched, Flush(level, f), st.(mem := [], version := v, nextFile := st.nextFile + 2));
  }

  /** One operation, flushed by itself. */
  lemma WriteFlushed(st: State, op: Op, level: nat, f: FileMeta, v: Version)
    requires Reachable(st) && st.inflight.None? && st.imm.None? && st.mem == [] && |st.history| + 1 < MAX_SEQUENCE
    requires f.number == st.nextFile + 1 && f.entries == [EntryOf(op, |st.history| + 1)] && ValidFile(f)
    requires Picked(st.version, level, f) && Added(st.version, level, f, v)
    ensures Reachable(st.(history := st.history + [op], version := v, nextFile := st.nextFile + 2))
  {
    hide Reachable, ValidFile, Added, Picked;
    WriteReached(st, [op]);
    assert [op][..0] == [];
    assert InsertAll([], [op], |st.history|) == [EntryOf(op, |st.history| + 1)];
    var written := st.(history := st.history + [op], mem := f.entries);
    FlushReached(written, level, f, v);
    assert written.(mem := [], version := v, nextFile := written.nextFile + 2)
        == st.(history := st.history + [op], version := v, nextFile := st.nextFile + 2);
  }

  // ---------- a deleted key returns ----------

  const PUT_ONE := Op.Put(1.0, [])
  const PUT_TWO := Op.Put(2.0, [])
  const PUT_THREE := Op.Put(3.0, [])
  const DELETE_TWO := Op.Delete(2.0)
  const WHOLE_FILE := FileMeta(2, 1, OLDER.key, DELETED.key, [OLDER, DELETION, DELETED])
  const WHOLE: Version := [[], [], [WHOLE_FILE], [], [], [], []]
  const CUT: Version := [[], [], [], [INPUT_FILE, NEXT_FILE], [], [], []]
  const WHOLE_JOB := Job(2, [WHOLE_FILE], [], WHOLE, 2)
  const WHOLE_HULL := Range(Some(1.0), Some(2.0))
  const CUT_STATE := State([PUT_ONE, PUT_TWO, DELETE_TWO], 2, [], None, CUT, 5, [], None, None)
  /** The compaction of `CompactionMeaning.DeletedKeyReturns` is running, in a database with four operations. */
  const SPLIT_STATE := State([PUT_ONE, PUT_TWO, DELETE_TWO, PUT_ONE], 2, [], None, SPLIT, 7, [], None, Some(SPLIT_JOB))

  /** Two values, a snapshot, the deletion of one of them; all in one file of level 2. */
  lemma WholeReached()
    ensures Reachable(State([PUT_ONE, PUT_TWO, DELETE_TWO], 0, [], None, WHOLE, 3, [2], None, None))
  {
    hide Reachable, Added, Picked, ValidFile;
    StartReached();
    var two := [PUT_ONE, PUT_TWO];
    WriteReached(EMPTY, two);
    FirstMem();
    var st1 := State(two, 0, [OLDER, DELETED], None, NO_FILES, 1, [], None, None);
    assert [] + two == two;
    assert EMPTY.(history := two, mem := [OLDER, DELETED]) == st1;
    var st2 := st1.(snapshots := [2]);
    assert [] + [LastSequence(st1)] == [2];
    StepReached(st1, TakeSnapshot, st2);
    WriteReached(st2, [DELETE_TWO]);
    SecondMem();
    assert two + [DELETE_TWO] == [PUT_ONE, PUT_TWO, DELETE_TWO];
    var st3 := State([PUT_ONE, PUT_TWO, DELETE_TWO], 0, [OLDER, DELETION, DELETED], None, NO_FILES, 1, [2], None, None);
    assert st2.(history := two + [DELETE_TWO], mem := [OLDER, DELETION, DELETED]) == st3;
    WholePlaced();
    FlushReached(st3, 2, WHOLE_FILE, WHOLE);
  }

  lemma FirstMem()
    ensures InsertAll([], [PUT_ONE, PUT_TWO], 0) == [OLDER, DELETED]
  {
    assert [PUT_ONE, PUT_TWO][..1] == [PUT_ONE] && [PUT_ONE][..0] == [];
    assert InsertAll([], [PUT_ONE], 0) == [OLDER];
    assert [OLDER][1..] == [];
    assert Seek([OLDER], DELETED.key) == 1;
  }

  lemma SecondMem()
    ensures InsertAll([OLDER, DELETED], [DELETE_TWO], 2) == [OLDER, DELETION, DELETED]
  {
    assert [DELETE_TWO][..0] == [];
    assert [OLDER, DELETED][1..] == [DELETED];
    assert Seek([DELETED], DELETION.key) == 0;
    assert Seek([OLDER, DELETED], DELETION.key) == 1;
  }

  lemma WholePlaced()
    ensures ValidFile(WHOLE_FILE) && Picked(NO_FILES, 2, WHOLE_FILE) && Added(NO_FILES, 2, WHOLE_FILE, WHOLE)
  {
    assert WHOLE_FILE.entries[0] == OLDER && WHOLE_FILE.entries[1] == DELETION && WHOLE_FILE.entries[2] == DELETED;
    NoFilesEmpty();
    forall l: nat, f ensures InLevel(WHOLE, l, f) <==> l == 2 && f == WHOLE_FILE {
      assert WHOLE[2][0] == WHOLE_FILE;
    }
  }

  lemma NoFilesEmpty()
    ensures forall l: nat, f :: !InLevel(NO_FILES, l, f)
  {
  }

  /** What an entry takes in a table: user key 2 has two megabytes, everything else is small. */
  function EntrySize(e: Entry): nat {
    if e.key.user == 2.0 then 0x20_0000 else 100
  }

  /** A table builder's finished blocks of at least 4 KB, and the block it is filling. */
  function TableBlocks(es: seq<Entry>): (nat, nat) {
    if es == [] then (0, 0)
    else
      var (written, open) := TableBlocks(es[..|es| - 1]);
      var more := open + EntrySize(es[|es| - 1]);
      if more >= 4096 then (written + more, 0) else (written, more)
  }

  /** The default limits: 2 MB for a file, ten times that for its grandparents. */
  function DefaultLimits(): Limits {
    Limits(0x20_0000, 0x140_0000, es => TableBlocks(es).0)
  }

  /** The loop finishes its output behind the deletion, whose key alone is as large as a file may be. */
  lemma CutBySize()
    ensures NotTooLong(INPUT_FILE.entries, DefaultLimits()) && NotTooLong(NEXT_FILE.entries, DefaultLimits())
    ensures CutBetween(INPUT_FILE.entries, NEXT_FILE.entries, iset{}, DefaultLimits())
  {
    var es := [OLDER, DELETION];
    assert INPUT_FILE.entries == es && es[..1] == [OLDER] && [OLDER][..0] == [];
    assert TableBlocks([OLDER]) == (0, 100);
    assert TableBlocks(es) == (0x20_0000 + 100, 0);
    forall n | 0 < n < |es| ensures TableBlocks(es[..n]).0 < 0x20_0000 {
      assert n == 1;
    }
  }

  /** A manual compaction to level 3 keeps all three entries for the snapshot, and cuts its output inside the key. */
  lemma CutReached()
    ensures Reachable(CUT_STATE)
  {
    hide Reachable, OutputsOk, OutputsClear, Replaced, Ready, NoResurrection;
    WholeReached();
    var st1 := State([PUT_ONE, PUT_TWO, DELETE_TWO], 0, [], None, WHOLE, 3, [2], None, None);
    var st2 := st1.(job := Some(WHOLE_JOB));
    WholeReady();
    StepReached(st1, StartCompaction(2, [WHOLE_FILE], [], WHOLE_HULL), st2);
    var st3 := st2.(version := CUT, nextFile := 5, job := None, floor := 2);
    CutInstalled(st2);
    StepReached(st2, FinishCompaction([INPUT_FILE, NEXT_FILE]), st3);
    assert [2][..0] + [2][1..] == [];
    StepReached(st3, ReleaseSnapshot(0), CUT_STATE);
  }

  lemma WholeReady()
    ensures Ready(WHOLE, 2, [WHOLE_FILE], [], WHOLE_HULL)
  {
    assert [WHOLE_FILE][0] == WHOLE_FILE;
  }

  lemma CutInstalled(st: State)
    requires st.version == WHOLE && st.job == Some(WHOLE_JOB)
    ensures OutputsOk(WHOLE, WHOLE_JOB, [INPUT_FILE, NEXT_FILE])
    ensures Replaced(WHOLE, WHOLE_JOB, [INPUT_FILE, NEXT_FILE], CUT)
    ensures NoResurrection(st) && OutputsClear(WHOLE, WHOLE_JOB, [INPUT_FILE, NEXT_FILE])
    ensures INPUT_FILE.number < 5 && NEXT_FILE.number < 5
  {
    hide VersionEntries, Hidden, EntrySet, BaseKeys;
    var outputs := [INPUT_FILE, NEXT_FILE];
    CutOutputs();
    assert outputs[0] == INPUT_FILE && outputs[1] == NEXT_FILE;
    assert WHOLE_JOB.in0 + WHOLE_JOB.in1 == [WHOLE_FILE];
    assert ValidFile(INPUT_FILE) && ValidFile(NEXT_FILE);
    forall l: nat, f
      ensures InLevel(WHOLE, l, f) <==> l == 2 && f == WHOLE_FILE
      ensures InLevel(CUT, l, f) <==> l == 3 && f in outputs
    {
      assert WHOLE[2][0] == WHOLE_FILE && CUT[3] == outputs;
    }
    assert [WHOLE_FILE][0] == WHOLE_FILE;
  }

  lemma CutOutputs()
    ensures var inputs, base := InputEntries(WHOLE_JOB), BaseKeys(WHOLE, 2);
            && EntrySet([INPUT_FILE, NEXT_FILE]) == Survivors(inputs, 2, base)
            && forall e :: e in inputs ==> !Obsolete(2, base, e)
  {
    hide BaseKeys;
    assert WHOLE_JOB.in0 + WHOLE_JOB.in1 == [WHOLE_FILE];
    EntrySetOne(WHOLE_FILE);
    EntrySetTwo(INPUT_FILE, NEXT_FILE);
    var inputs, base := InputEntries(WHOLE_JOB), BaseKeys(WHOLE, 2);
    assert INPUT_FILE.entries[0] == OLDER && INPUT_FILE.entries[1] == DELETION && NEXT_FILE.entries[0] == DELETED;
    assert forall e :: e in inputs <==> e == OLDER || e == DELETION || e == DELETED;
    assert forall e :: e in inputs ==> !Hidden(inputs, 2, e) && !Obsolete(2, base, e);
  }

  /** Key 1 is written again and flushed to level 2, and that file is compacted. */
  lemma SplitReached()
    ensures Reachable(SPLIT_STATE)
  {
    hide Reachable, Added, Picked, ValidFile, Ready;
    CutReached();
    UpperPlaced();
    WriteFlushed(CUT_STATE, PUT_ONE, 2, UPPER_FILE, SPLIT);
    assert CUT_STATE.history + [PUT_ONE] == SPLIT_STATE.history;
    var st := CUT_STATE.(history := SPLIT_STATE.history, version := SPLIT, nextFile := 7);
    SplitReady();
    StepReached(st, StartCompaction(2, [UPPER_FILE], [INPUT_FILE], SPLIT_HULL), SPLIT_STATE);
  }

  lemma UpperPlaced()
    ensures ValidFile(UPPER_FILE) && Picked(CUT, 2, UPPER_FILE) && Added(CUT, 2, UPPER_FILE, SPLIT)
  {
    forall l: nat, f
      ensures InLevel(CUT, l, f) <==> l == 3 && (f == INPUT_FILE || f == NEXT_FILE)
      ensures InLevel(SPLIT, l, f) <==> InLevel(CUT, l, f) || (l == 2 && f == UPPER_FILE)
    {
      assert CUT[3][0] == INPUT_FILE && CUT[3][1] == NEXT_FILE;
      SplitLevels(l, f);
    }
  }

  /** In a state that the database reaches, with outputs cut as the size limit cuts them, a compaction is running that
      may install a version in which a key whose deletion was the last thing done to it reads as its old value. */
  lemma DeletedKeyReturnsInRun()
    ensures Reachable(SPLIT_STATE) && SPLIT_STATE.job == Some(SPLIT_JOB) && SPLIT_STATE.version == SPLIT
    ensures OutputsOk(SPLIT, SPLIT_JOB, [OUTPUT_FILE]) && Replaced(SPLIT, SPLIT_JOB, [OUTPUT_FILE], SPLIT_AFTER)
    ensures SpecRead(SPLIT_STATE.history, 2.0, 4) == None
    ensures Read(VersionEntries(SPLIT), 2.0, 4) == None && Read(VersionEntries(SPLIT_AFTER), 2.0, 4) == Some([])
    ensures CutBetween(INPUT_FILE.entries, NEXT_FILE.entries, iset{}, DefaultLimits())
    ensures NotTooLong(OUTPUT_FILE.entries, DefaultLimits())
  {
    CutBySize();
    hide Reachable, OutputsOk, Replaced, VersionOk, Ready, VersionEntries, Read;
    SplitReached();
    SplitInstalled();
    DeletedKeyReturns([OUTPUT_FILE], SPLIT_AFTER);
  }

  // ---------- a flush among the inputs ----------

  const GAP_STATE := State([PUT_ONE, PUT_THREE, PUT_ONE, PUT_THREE], 0, [], None, GAP, 9, [], None, None)
  const GAP_FLUSHED_STATE :=
    State([PUT_ONE, PUT_THREE, PUT_ONE, PUT_THREE, PUT_TWO], 0, [], None, GAP_FLUSHED, 11, [], None, Some(GAP_JOB))

  const FIRST_VERSION: Version := [[], [], [OLD_ONE_FILE], [], [], [], []]
  const SECOND_VERSION: Version := [[], [], [OLD_ONE_FILE, OLD_THREE_FILE], [], [], [], []]
  const THIRD_VERSION: Version := [[], [ONE_FILE], [OLD_ONE_FILE, OLD_THREE_FILE], [], [], [], []]

  /** Keys 1 and 3 are written and flushed twice: to level 2, and then to level 1 in front of it. */
  lemma GapReached()
    ensures Reachable(GAP_STATE)
  {
    hide Reachable, Added, Picked, ValidFile;
    StartReached();
    GapFilesPlaced();
    WriteFlushed(EMPTY, PUT_ONE, 2, OLD_ONE_FILE, FIRST_VERSION);
    assert [] + [PUT_ONE] == [PUT_ONE];
    var st1 := EMPTY.(history := [PUT_ONE], version := FIRST_VERSION, nextFile := 3);
    WriteFlushed(st1, PUT_THREE, 2, OLD_THREE_FILE, SECOND_VERSION);
    var st2 := st1.(history := [PUT_ONE] + [PUT_THREE], version := SECOND_VERSION, nextFile := 5);
    WriteFlushed(st2, PUT_ONE, 1, ONE_FILE, THIRD_VERSION);
    var st3 := st2.(history := [PUT_ONE] + [PUT_THREE] + [PUT_ONE], version := THIRD_VERSION, nextFile := 7);
    WriteFlushed(st3, PUT_THREE, 1, THREE_FILE, GAP);
    assert [PUT_ONE] + [PUT_THREE] + [PUT_ONE] + [PUT_THREE] == GAP_STATE.history;
    assert st3.(history := GAP_STATE.history, version := GAP, nextFile := 9) == GAP_STATE;
  }

  lemma GapFilesPlaced()
    ensures ValidFile(OLD_ONE_FILE) && Picked(NO_FILES, 2, OLD_ONE_FILE)
    ensures Added(NO_FILES, 2, OLD_ONE_FILE, FIRST_VERSION)
    ensures ValidFile(OLD_THREE_FILE) && Picked(FIRST_VERSION, 2, OLD_THREE_FILE)
    ensures Added(FIRST_VERSION, 2, OLD_THREE_FILE, SECOND_VERSION)
    ensures ValidFile(ONE_FILE) && Picked(SECOND_VERSION, 1, ONE_FILE)
    ensures Added(SECOND_VERSION, 1, ONE_FILE, THIRD_VERSION)
    ensures ValidFile(THREE_FILE) && Picked(THIRD_VERSION, 1, THREE_FILE) && Added(THIRD_VERSION, 1, THREE_FILE, GAP)
  {
    NoFilesEmpty();
    forall l: nat, f
      ensures InLevel(FIRST_VERSION, l, f) <==> l == 2 && f == OLD_ONE_FILE
      ensures InLevel(SECOND_VERSION, l, f) <==> l == 2 && (f == OLD_ONE_FILE || f == OLD_THREE_FILE)
      ensures InLevel(THIRD_VERSION, l, f) <==> InLevel(SECOND_VERSION, l, f) || (l == 1 && f == ONE_FILE)
      ensures InLevel(GAP, l, f) <==> InLevel(THIRD_VERSION, l, f) || (l == 1 && f == THREE_FILE)
    {
      assert FIRST_VERSION[2][0] == OLD_ONE_FILE && THIRD_VERSION[1][0] == ONE_FILE;
      assert SECOND_VERSION[2][0] == OLD_ONE_FILE && SECOND_VERSION[2][1] == OLD_THREE_FILE;
      GapLevels(l, f);
    }
    assert SECOND_VERSION[2][0] == OLD_ONE_FILE && SECOND_VERSION[2][1] == OLD_THREE_FILE;
    assert !Apart(ONE_FILE, OLD_ONE_FILE) && !Apart(THREE_FILE, OLD_THREE_FILE);
  }

  /** In a state that the database reaches, a compaction is running that may install a version in which two files of
      level 2 overlap, because a memtable was flushed between its inputs. */
  lemma FlushAmongInputsInRun()
    ensures Reachable(GAP_FLUSHED_STATE) && GAP_FLUSHED_STATE.job == Some(GAP_JOB)
    ensures GAP_FLUSHED_STATE.version == GAP_FLUSHED
    ensures OutputsOk(GAP_FLUSHED, GAP_JOB, [JOINED_FILE]) && Replaced(GAP_FLUSHED, GAP_JOB, [JOINED_FILE], OVERLAPPING)
    ensures VersionOk(GAP_FLUSHED) && !VersionOk(OVERLAPPING)
  {
    hide Reachable, OutputsOk, Replaced, VersionOk, JobOk, Ready, Added, ValidFile, PlacedClear;
    FlushAmongInputs();
    GapReached();
    var st := GAP_STATE.(job := Some(GAP_JOB));
    StepReached(GAP_STATE, StartCompaction(1, GAP_JOB.in0, GAP_JOB.in1, GAP_HULL), st);
    assert ValidFile(BETWEEN_FILE) by { BetweenValid(); }
    WriteFlushed(st, PUT_TWO, 2, BETWEEN_FILE, GAP_FLUSHED);
    assert GAP_STATE.history + [PUT_TWO] == GAP_FLUSHED_STATE.history;
    assert st.(history := GAP_FLUSHED_STATE.history, version := GAP_FLUSHED, nextFile := 11) == GAP_FLUSHED_STATE;
  }

  lemma BetweenValid()
    ensures ValidFile(BETWEEN_FILE)
  {
  }
}
