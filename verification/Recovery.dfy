/** Crash safety: every step keeps the durable state complete, and recovery rebuilds the database from it. */
module Recovery {
  import opened InternalKeys
  import opened Meaning
  import opened Files
  import opened Versions
  import opened InputSelection
  import opened Edits
  import opened Installing
  import opened CompactionMeaning
  import opened Flushing
  import opened Engine
  import opened EngineInvariant
  import opened Database
  import opened Durability

  // ---------- replaying the logs ----------

  lemma ReplayStart(db: Db, next: nat)
    requires DbInv(db) && LastSequence(db.st) <= Logged(db) <= |Ops(db.st)|
    requires db.disk.manifest.nextFile <= next
    ensures Flushed(db) <= Logged(db)
    ensures Replayed(db.st.version, DurableOps(db), Flushed(db), db.st.version, [], next, Flushed(db))
  {
    hide VersionOk, AllOrdered, VersionEntries, ReadsRight, JobOk, Span, Stored, AllNewer, TablesStored, EditOk;
    var v, from, ops := db.st.version, Flushed(db), DurableOps(db);
    var mem: seq<Entry> := [];
    EmptyRun(VersionEntries(v));
    assert Written(ops, from, from) == {} by {
      forall e ensures e !in Written(ops, from, from) { WrittenAre(ops, from, from, e); }
    }
    assert VersionEntries(v) + Contents(mem) == VersionEntries(v);
    forall e | e in VersionEntries(v)
      ensures 1 <= e.key.sequence <= |ops| && e == EntryOf(ops[e.key.sequence - 1], e.key.sequence)
    {
      assert e in Entries(db.st);
    }
  }

  lemma ReplayInsert(v0: Version, ops: seq<Op>, from: nat, v: Version, mem: seq<Entry>, next: nat, p: nat)
    requires Replayed(v0, ops, from, v, mem, next, p) && p < |ops|
    ensures Replayed(v0, ops, from, v, MemInsert(mem, EntryOf(ops[p], p + 1)), next, p + 1)
  {
    hide VersionOk, AllOrdered, VersionEntries, MemInsert, Sorted;
    var e := EntryOf(ops[p], p + 1);
    forall x | x in mem ensures x.key != e.key {
      assert x in VersionEntries(v) + Contents(mem);
    }
    MemInsertSorted(mem, e);
    WrittenOne(ops, from, p);
    assert VersionEntries(v) + (Contents(mem) + {e}) == (VersionEntries(v) + Contents(mem)) + {e};
  }

  /** Flushing a replayed memtable to level 0. */
  lemma ReplayFlush(v0: Version, ops: seq<Op>, from: nat, v: Version, mem: seq<Entry>, next: nat, p: nat, f: FileMeta,
                    v': Version)
    requires Replayed(v0, ops, from, v, mem, next, p) && mem != []
    requires f.number == next && f.entries == mem && Spans(f) && Added(v, 0, f, v')
    ensures ValidFile(f)
    ensures Replayed(v0, ops, from, v', [], next + 1, p)
  {
    hide VersionOk, VersionEntries, Sorted, AllNewer, Authentic, Ordered;
    assert Bounded(mem, MAX_SEQUENCE) by {
      forall e | e in mem ensures e.key.sequence <= MAX_SEQUENCE {
        assert e in VersionEntries(v) + Contents(mem);
      }
    }
    AuthenticFunctional(VersionEntries(v) + Contents(mem), ops);
    FlushKeepsOrder(v, 0, f, v');
    EntriesAdded(v, 0, f, v');
    var none: seq<Entry> := [];
    EmptyRun(VersionEntries(v'));
    assert VersionEntries(v') + Contents(none) == VersionEntries(v) + Contents(mem);
  }

  lemma EmptyRun(es: set<Entry>)
    ensures var none: seq<Entry> := []; Sorted(none) && Contents(none) == {} && AllNewer(Contents(none), es)
  {
  }

  /** The recovered engine state satisfies the invariant: reads follow the recovered history. */
  lemma RecoveredInv(db: Db, st': State)
    requires DbInv(db) && LastSequence(db.st) <= Logged(db) <= |Ops(db.st)|
    requires st' == State(Ops(db.st)[..Logged(db)], db.st.floor, st'.mem, None, st'.version, st'.nextFile,
                               [], None, None)
    requires Flushed(db) <= |st'.history|
    requires Replayed(db.st.version, st'.history, Flushed(db), st'.version, st'.mem, st'.nextFile, |st'.history|)
    ensures Inv(st')
  {
    hide VersionOk, AllOrdered, VersionEntries, ReadsRight, Span, Stored, AllNewer, TablesStored, Sorted, MemLogged;
    hide ImmLogged, LogsNamed, Layered;
    RecoveredLayers(db, st');
    RecoveredReads(db, st');
  }

  lemma RecoveredLayers(db: Db, st': State)
    requires st' == State(st'.history, db.st.floor, st'.mem, None, st'.version, st'.nextFile, [], None, None)
    requires Replayed(db.st.version, st'.history, Flushed(db), st'.version, st'.mem, st'.nextFile, |st'.history|)
    ensures Layered(st')
  {
    hide VersionOk, AllOrdered, VersionEntries, Sorted;
    assert Entries(st') == VersionEntries(st'.version) + Contents(st'.mem);
    assert ImmEntries(st') + VersionEntries(st'.version) == VersionEntries(st'.version);
  }

  lemma RecoveredReads(db: Db, st': State)
    requires DbInv(db) && LastSequence(db.st) <= Logged(db) <= |Ops(db.st)|
    requires st' == State(Ops(db.st)[..Logged(db)], db.st.floor, st'.mem, None, st'.version, st'.nextFile,
                               [], None, None)
    requires Flushed(db) <= |st'.history|
    requires Replayed(db.st.version, st'.history, Flushed(db), st'.version, st'.mem, st'.nextFile, |st'.history|)
    ensures ReadsRight(st')
  {
    hide DbInv, Entries, VersionEntries, Authentic, Functional, Replayed, Read, SpecRead, Written;
    var ops := st'.history;
    var last := LastSequence(db.st);
    EntriesBelow(db, st');
    ReadsBefore(db);
    AuthenticFunctional(Entries(st'), ops);
    forall n | last < n <= |ops| ensures Present(Entries(st'), ops, n) {
      WrittenAre(ops, Flushed(db), |ops|, EntryOf(ops[n - 1], n));
    }
    assert ops[..last] == db.st.history;
    forall u: UserKey, s: nat | st'.floor <= s <= LastSequence(st')
      ensures Read(Entries(st'), u, s) == SpecRead(ops, u, s)
    {
      RecoveredRead(db.st, Entries(st'), ops, u, s);
    }
  }

  lemma ReadsBefore(db: Db)
    requires DbInv(db)
    ensures ReadsRight(db.st) && Functional(Entries(db.st)) && db.st.floor <= LastSequence(db.st)
    ensures Flushed(db) <= LastSequence(db.st)
  {
    hide VersionOk, AllOrdered, VersionEntries, AllNewer, TablesStored, Sorted, ReadsRight, LogsNamed, Span, Written;
    hide JobFits, UpTo, Functional, ManifestOk, TornOk, EditOk;
    AuthenticFunctional(Entries(db.st), Ops(db.st));
  }

  /** One read after recovery: as before the crash, then along the recovered operations. */
  lemma RecoveredRead(st: State, es: set<Entry>, ops: seq<Op>, u: UserKey, s: nat)
    requires ReadsRight(st) && Functional(Entries(st)) && Functional(es) && Authentic(es, ops)
    requires st.history <= ops && st.floor <= s <= |ops| && st.floor <= LastSequence(st)
    requires forall e: Entry :: e.key.sequence <= LastSequence(st) ==> (e in es <==> e in Entries(st))
    requires forall n :: LastSequence(st) < n <= |ops| ==> Present(es, ops, n)
    ensures Read(es, u, s) == SpecRead(ops, u, s)
  {
    hide Entries, Functional, Authentic, Read, SpecRead;
    var t := if s <= LastSequence(st) then s else LastSequence(st);
    ReadAgrees(Entries(st), es, u, t);
    assert ops == st.history + ops[LastSequence(st)..];
    SpecReadPrefix(st.history, ops[LastSequence(st)..], u, t);
    ReadsFollow(es, ops, t, u, s);
  }

  /** Up to the last published operation, the recovered entries are those from before the crash. */
  lemma EntriesBelow(db: Db, st': State)
    requires DbInv(db) && LastSequence(db.st) <= Logged(db) <= |Ops(db.st)|
    requires st'.history == Ops(db.st)[..Logged(db)] && st'.imm == None
    requires Flushed(db) <= |st'.history|
    requires Replayed(db.st.version, st'.history, Flushed(db), st'.version, st'.mem, st'.nextFile, |st'.history|)
    ensures Entries(st') == VersionEntries(db.st.version) + Written(st'.history, Flushed(db), |st'.history|)
    ensures Authentic(Entries(st'), st'.history)
    ensures forall e: Entry :: e.key.sequence <= LastSequence(db.st) ==> (e in Entries(st') <==> e in Entries(db.st))
  {
    hide VersionOk, AllOrdered, VersionEntries, Stored, AllNewer, TablesStored, Sorted, Span, Written, JobFits;
    hide ReadsRight, Authentic;
    var ops := st'.history;
    assert Entries(st') == VersionEntries(st'.version) + Contents(st'.mem);
    forall e: Entry | e.key.sequence <= LastSequence(db.st) ensures e in Entries(st') <==> e in Entries(db.st) {
      WrittenAre(ops, Flushed(db), |ops|, e);
      WrittenAre(Ops(db.st), db.memStart, LastSequence(db.st) + Inserted(db.st), e);
      if db.st.imm.Some? {
        WrittenAre(db.st.history, db.immStart, db.memStart, e);
      }
    }
  }

  // ---------- steps keep the durable state complete ----------

  /** The memtable and its log depend on the engine state only through these parts. */
  lemma SameMemLogged(db: Db, db': Db)
    requires MemLogged(db) && db'.st.history == db.st.history && db'.st.inflight == db.st.inflight
    requires db'.st.mem == db.st.mem
    requires db'.logged == db.logged && db'.memStart == db.memStart && db'.curLog == db.curLog
    requires db'.curLog in db'.disk.logs && db'.disk.logs[db'.curLog] == db.disk.logs[db.curLog]
    ensures MemLogged(db')
  {
    hide Span, Written, Contents;
    assert Ops(db'.st) == Ops(db.st) && Logged(db') == Logged(db) && Inserted(db'.st) == Inserted(db.st);
  }

  lemma SameImmLogged(db: Db, db': Db)
    requires ImmLogged(db) && db'.st.imm == db.st.imm && db'.immStart == db.immStart && db'.memStart == db.memStart
    requires db.st.history <= db'.st.history && db'.immLog == db.immLog && db'.curLog == db.curLog
    requires db.st.imm.Some? ==> db'.immLog in db'.disk.logs && db'.disk.logs[db'.immLog] == db.disk.logs[db.immLog]
    ensures ImmLogged(db')
  {
    hide Span, Written, Contents;
    if db.st.imm.Some? {
      assert ImmEntries(db'.st) == ImmEntries(db.st);
      WrittenPrefix(db.st.history, db'.st.history, db.immStart, db.memStart);
      SpanExtend(db.disk.logs[db.immLog], db.st.history, db'.st.history, db.immStart, db.memStart);
    }
  }

  lemma SameLogsNamed(db: Db, db': Db)
    requires LogsNamed(db) && db'.disk.logs == db.disk.logs && db'.disk.manifest.logNumber == db.disk.manifest.logNumber
    requires db'.curLog == db.curLog && db'.immLog == db.immLog && db'.st.imm == db.st.imm
    requires db'.immStart == db.immStart && db'.memStart == db.memStart && db.st.nextFile <= db'.st.nextFile
    requires VersionEntries(db'.st.version) <= VersionEntries(db.st.version)
    ensures LogsNamed(db')
  {
    hide VersionEntries;
  }

  lemma StoredMore(v: Version, v': Version, tables: set<nat>, more: set<nat>)
    requires Stored(v, tables)
    requires (forall l, f :: InLevel(v', l, f) ==> (exists m :: InLevel(v, m, f)) || f.number in more)
    ensures Stored(v', tables + more)
  {
  }

  /** Steps that only touch the version, the job, the snapshots or the file counter. */
  predicate IsQuiet(step: Step) {
    || step.NewFileNumber? || step.StartCompaction? || step.TakeSnapshot? || step.ReleaseSnapshot?
    || step.TrivialMove? || step.FinishCompaction?
  }

  lemma QuietStepKeeps(db: Db, step: Step, db': Db)
    requires DbInv(db) && EngineNext(db, step, db')
    requires IsQuiet(step)
    ensures DbInv(db')
  {
    hide Inv, MemLogged, ImmLogged, LogsNamed, TablesStored, ManifestOk, TornOk, EditOk, VersionEntries, EngineNext;
    hide Next;
    QuietParts(db, step, db');
    StepKeepsInv(db.st, step, db'.st);
    SameMemLogged(db, db') by { MemLogIsThere(db); }
    SameImmLogged(db, db') by { ImmLogIsThere(db); }
    VersionShrinks(db, step, db');
    SameLogsNamed(db, db');
    QuietStored(db, step, db');
    QuietCounters(db, step, db');
  }

  /** What such a step leaves alone. */
  lemma QuietParts(db: Db, step: Step, db': Db)
    requires EngineNext(db, step, db')
    requires IsQuiet(step)
    ensures Next(db.st, step, db'.st) && db.st.nextFile <= db'.st.nextFile
    ensures db'.st.history == db.st.history && db'.st.inflight == db.st.inflight && db'.st.mem == db.st.mem
    ensures db'.st.imm == db.st.imm
    ensures db'.disk.logs == db.disk.logs && db'.disk.manifest.logNumber == db.disk.manifest.logNumber
    ensures db'.curLog == db.curLog && db'.immLog == db.immLog && db'.memStart == db.memStart
    ensures db'.immStart == db.immStart && db'.logged == db.logged
  {
    hide OutputsClear, Ready, OutputsOk, Replaced, Applied, NoResurrection;
  }

  lemma QuietCounters(db: Db, step: Step, db': Db)
    requires Inv(db.st) && ManifestOk(db) && TornOk(db) && EditOk(db) && EngineNext(db, step, db')
    requires IsQuiet(step)
    ensures ManifestOk(db') && TornOk(db') && EditOk(db')
  {
    hide Inv, InLevel, OutputsClear, Ready, OutputsOk, Replaced, Applied, NoResurrection;
    if step.TrivialMove? {
      MovedNumbers(db, step, db');
    } else if step.FinishCompaction? {
      ReplacedNumbers(db.st.version, db.st.job.value, step.outputs, db'.st.version, db.edit.value.nextFile);
    }
  }

  lemma MovedNumbers(db: Db, step: Step, db': Db)
    requires Inv(db.st) && ManifestOk(db) && EditOk(db) && Next(db.st, step, db'.st) && step.TrivialMove?
    requires db.edit.Some?
    ensures forall l, f :: InLevel(db'.st.version, l, f) ==> f.number < db.edit.value.nextFile
  {
    hide VersionOk, AllOrdered, ReadsRight, Ready, Applied, VersionEntries, AllNewer, Authentic, JobFits, UpTo;
    MoveKeepsOrder(db.st.version, step.from, step.moved, step.range, db'.st.version);
  }

  lemma ReplacedNumbers(v: Version, j: Job, outputs: seq<FileMeta>, v': Version, next: nat)
    requires Replaced(v, j, outputs, v') && forall l, f :: InLevel(v, l, f) ==> f.number < next
    requires forall o :: o in outputs ==> o.number < next
    ensures forall l, f :: InLevel(v', l, f) ==> f.number < next
  {
    hide IsInput;
  }

  lemma MemLogIsThere(db: Db)
    requires MemLogged(db)
    ensures db.curLog in db.disk.logs
  {
    hide Span, Written, Contents;
  }

  lemma ImmLogIsThere(db: Db)
    requires ImmLogged(db)
    ensures db.st.imm.Some? ==> db.immLog in db.disk.logs
  {
    hide Span, Written;
  }

  lemma VersionShrinks(db: Db, step: Step, db': Db)
    requires Inv(db.st) && Next(db.st, step, db'.st)
    requires IsQuiet(step)
    ensures VersionEntries(db'.st.version) <= VersionEntries(db.st.version)
  {
    hide VersionEntries, VersionOk, ReadsRight, Ready, OutputsOk, OutputsClear, Replaced, Applied, JobOk, AllNewer;
    hide Authentic;
    if step.TrivialMove? {
      MoveKeepsOrder(db.st.version, step.from, step.moved, step.range, db'.st.version);
    } else if step.FinishCompaction? {
      EntriesBefore(db.st.version, db.st.job.value);
      EntriesAfter(db.st.version, db.st.job.value, step.outputs, db'.st.version);
    }
  }

  lemma QuietStored(db: Db, step: Step, db': Db)
    requires Inv(db.st) && TablesStored(db) && EngineNext(db, step, db')
    requires IsQuiet(step)
    ensures TablesStored(db')
  {
    hide VersionEntries, VersionOk, ReadsRight, Ready, OutputsOk, Replaced, Applied, JobOk, AllNewer, Authentic;
    hide AllOrdered, NoResurrection, OutputsClear, Stored, UpTo, InLevel;
    if step.TrivialMove? {
      MoveKeepsOrder(db.st.version, step.from, step.moved, step.range, db'.st.version);
      StoredMore(db.st.version, db'.st.version, db.disk.tables, {});
      assert db.disk.tables + {} == db.disk.tables;
    } else if step.FinishCompaction? {
      ReplacedStored(db.st.version, db.st.job.value, step.outputs, db'.st.version, db.disk.tables);
    }
  }

  lemma ReplacedStored(v: Version, j: Job, outputs: seq<FileMeta>, v': Version, tables: set<nat>)
    requires Replaced(v, j, outputs, v') && Stored(v, tables) && forall o :: o in outputs ==> o.number in tables
    ensures Stored(v', tables)
  {
    hide IsInput;
  }

  lemma BeginKeeps(db: Db, step: Step, db': Db)
    requires DbInv(db) && EngineNext(db, step, db') && step.BeginWrite?
    ensures DbInv(db')
  {
    hide Inv, VersionEntries, Written, Contents, Span, Stored;
    StepKeepsInv(db.st, step, db'.st);
    assert Ops(db.st) == db.st.history;
    WrittenPrefix(db.st.history, Ops(db'.st), db.memStart, LastSequence(db.st));
    SpanExtend(db.disk.logs[db.curLog], db.st.history, Ops(db'.st), db.memStart, LastSequence(db.st));
    assert ImmEntries(db'.st) == ImmEntries(db.st);
  }

  lemma InsertKeeps(db: Db, step: Step, db': Db)
    requires DbInv(db) && EngineNext(db, step, db') && step.InsertOne?
    ensures DbInv(db')
  {
    hide Inv, VersionEntries, Written, Contents, Span, Stored, MemInsert;
    StepKeepsInv(db.st, step, db'.st);
    var g := db.st.inflight.value;
    var e := EntryOf(g.ops[g.inserted], LastSequence(db.st) + 1 + g.inserted);
    InsertContents(db.st.mem, e);
    assert Ops(db'.st) == Ops(db.st) && Ops(db.st)[LastSequence(db.st) + g.inserted] == g.ops[g.inserted];
    WrittenOne(Ops(db.st), db.memStart, LastSequence(db.st) + g.inserted);
    assert ImmEntries(db'.st) == ImmEntries(db.st);
  }

  lemma InsertContents(mem: seq<Entry>, e: Entry)
    ensures Contents(MemInsert(mem, e)) == Contents(mem) + {e}
  {
    InsertMembers(mem, e);
  }

  lemma PublishKeepsDb(db: Db, step: Step, db': Db)
    requires DbInv(db) && EngineNext(db, step, db') && step.Publish?
    ensures DbInv(db')
  {
    hide Inv, VersionEntries, Written, Contents, Span, Stored, ImmLogged;
    StepKeepsInv(db.st, step, db'.st);
    assert db'.st.history == Ops(db.st) == Ops(db'.st);
    SameImmLogged(db, db') by { ImmLogIsThere(db); }
  }

  lemma SwitchKeepsDb(db: Db, step: Step, db': Db)
    requires DbInv(db) && EngineNext(db, step, db') && step.SwitchMemTable?
    ensures DbInv(db')
  {
    hide Inv, VersionEntries, Stored;
    StepKeepsInv(db.st, step, db'.st);
    assert Ops(db.st) == db.st.history == Ops(db'.st);
    assert Written(db.st.history, LastSequence(db.st), LastSequence(db.st)) == {} by {
      forall e ensures e !in Written(db.st.history, LastSequence(db.st), LastSequence(db.st)) {
        WrittenAre(db.st.history, LastSequence(db.st), LastSequence(db.st), e);
      }
    }
    assert Contents(db'.st.mem) == {};
  }

  lemma FlushKeepsDb(db: Db, step: Step, db': Db)
    requires DbInv(db) && EngineNext(db, step, db') && (step.Flush? || step.FlushNothing?)
    ensures DbInv(db')
  {
    hide Inv, VersionEntries, Span, Written, ImmLogged, MemLogged, LogsNamed, TablesStored, ManifestOk, EditOk;
    hide PlacedClear;
    hide ValidFile, Added;
    StepKeepsInv(db.st, step, db'.st);
    SameMemLogged(db, db') by { MemLogIsThere(db); }
    FlushNamesLogs(db, step, db');
    FlushStores(db, step, db');
    FlushCounters(db, step, db');
    assert ImmLogged(db') by { NoImm(db'); }
  }

  lemma FlushCounters(db: Db, step: Step, db': Db)
    requires Inv(db'.st) && ManifestOk(db) && EditOk(db) && MemLogged(db) && LogsNamed(db) && EngineNext(db, step, db')
    requires step.Flush? || step.FlushNothing?
    ensures ManifestOk(db') && EditOk(db')
  {
    hide VersionEntries, VersionOk, ReadsRight, AllNewer, Authentic, AllOrdered, JobOk, UpTo, PlacedClear, ValidFile;
    hide Added;
    hide Span, Written, Contents;
  }

  lemma NoImm(db: Db)
    requires db.st.imm.None?
    ensures ImmLogged(db)
  {
  }

  lemma FlushNamesLogs(db: Db, step: Step, db': Db)
    requires ImmLogged(db) && LogsNamed(db) && EngineNext(db, step, db') && (step.Flush? || step.FlushNothing?)
    requires MemLogged(db)
    ensures LogsNamed(db')
  {
    hide VersionEntries, Span, PlacedClear, ValidFile, Added, Written;
    forall e | e in VersionEntries(db'.st.version) ensures e.key.sequence <= db.memStart {
      if step.Flush? {
        EntriesAdded(db.st.version, step.level, step.file, db'.st.version);
        if e in step.file.entries {
          assert e in ImmEntries(db.st);
          WrittenAre(db.st.history, db.immStart, db.memStart, e);
        }
      }
    }
  }

  lemma FlushStores(db: Db, step: Step, db': Db)
    requires TablesStored(db) && EngineNext(db, step, db') && (step.Flush? || step.FlushNothing?)
    ensures TablesStored(db')
  {
    hide PlacedClear, ValidFile, AllOrdered;
  }

  lemma EngineStepKeeps(db: Db, step: Step, db': Db)
    requires DbInv(db) && EngineNext(db, step, db')
    ensures DbInv(db')
  {
    hide DbInv, EngineNext;
    match step
    case BeginWrite(_) => BeginKeeps(db, step, db');
    case InsertOne => InsertKeeps(db, step, db');
    case Publish => PublishKeepsDb(db, step, db');
    case SwitchMemTable => SwitchKeepsDb(db, step, db');
    case Flush(_, _) => FlushKeepsDb(db, step, db');
    case FlushNothing => FlushKeepsDb(db, step, db');
    case _ => QuietStepKeeps(db, step, db');
  }

  lemma AppendKeeps(db: Db, db': Db)
    requires DbInv(db) && DbNext(db, AppendRecord, db')
    ensures DbInv(db')
  {
    hide Inv, VersionEntries, Written, Contents, Stored;
    var ops := db.st.inflight.value.ops;
    SpanAppend(db.disk.logs[db.curLog], Ops(db.st), db.memStart, LastSequence(db.st), |Ops(db.st)|);
    assert Ops(db.st)[LastSequence(db.st)..|Ops(db.st)|] == ops;
  }

  /** Deleting obsolete files keeps every log recovery needs and every table in use. */
  lemma DeleteKeeps(db: Db, db': Db)
    requires DbInv(db) && DbNext(db, DeleteObsoleteFiles, db')
    ensures DbInv(db')
  {
    hide Inv, VersionEntries, Written, Contents, Span;
    assert db.disk.manifest.logNumber <= db.curLog;
    forall l, f | InLevel(db.st.version, l, f) ensures f.number in db'.disk.tables {
      assert InVersionNumber(db.st.version, f.number);
    }
    forall i, l, f | 0 <= i < |db.pinned| && InLevel(db.pinned[i], l, f) ensures f.number in db'.disk.tables {
      assert InVersionNumber(db.pinned[i], f.number);
    }
    if db.st.job.Some? {
      forall l, f | InLevel(db.st.job.value.inputVersion, l, f) ensures f.number in db'.disk.tables {
        assert InVersionNumber(db.st.job.value.inputVersion, f.number);
      }
    }
  }

  /** And it leaves no other: a table stays exactly if a version in use or a table being written would miss it, and a
      log exactly if recovery may read it. */
  lemma DeleteIsComplete(db: Db, db': Db)
    requires DbInv(db) && DbNext(db, DeleteObsoleteFiles, db')
    ensures forall n :: n in db'.disk.tables <==>
                        n in db.disk.tables && !TablesStored(db.(disk := db.disk.(tables := db.disk.tables - {n})))
    ensures forall n :: n in db'.disk.logs <==> n in db.disk.logs && db.disk.manifest.logNumber <= n
  {
    hide Inv, MemLogged, ImmLogged, LogsNamed, ManifestOk, TornOk, EditOk;
    forall n | n in db.disk.tables
      ensures LiveTable(db, n) <==> !TablesStored(db.(disk := db.disk.(tables := db.disk.tables - {n})))
    {
      if LiveTable(db, n) {
        LiveIsMissed(db, n);
      } else {
        NotLiveNotMissed(db, n);
      }
    }
  }

  lemma LiveIsMissed(db: Db, n: nat)
    requires LiveTable(db, n)
    ensures !TablesStored(db.(disk := db.disk.(tables := db.disk.tables - {n})))
  {
    var less := db.disk.tables - {n};
    if InVersionNumber(db.st.version, n) {
      NumberIsMissed(db.st.version, n, less);
    } else if i :| 0 <= i < |db.pinned| && InVersionNumber(db.pinned[i], n) {
      NumberIsMissed(db.pinned[i], n, less);
    } else if db.st.job.Some? && InVersionNumber(db.st.job.value.inputVersion, n) {
      NumberIsMissed(db.st.job.value.inputVersion, n, less);
    }
  }

  lemma NumberIsMissed(v: Version, n: nat, tables: set<nat>)
    requires InVersionNumber(v, n) && n !in tables
    ensures !Stored(v, tables)
  {
  }

  lemma NotLiveNotMissed(db: Db, n: nat)
    requires TablesStored(db) && !LiveTable(db, n)
    ensures TablesStored(db.(disk := db.disk.(tables := db.disk.tables - {n})))
  {
  }

  lemma WriteTableKeeps(db: Db, db': Db)
    requires DbInv(db) && DbNext(db, WriteTable, db')
    ensures DbInv(db')
  {
    hide Inv, VersionEntries, Written, Contents, Span;
    StepKeepsInv(db.st, NewFileNumber, db'.st);
    assert Ops(db'.st) == Ops(db.st) && ImmEntries(db'.st) == ImmEntries(db.st);
  }

  lemma CrashKeeps(db: Db, db': Db)
    requires DbInv(db) && Recovered(db, db')
    ensures DbInv(db')
  {
    hide DbInv, MemLogged, LogsNamed, Replayed, Inv, ManifestOk;
    RecoveredInv(db, db'.st);
    NoImm(db');
    CombineInv(db');
  }

  lemma CombineInv(db: Db)
    requires Inv(db.st) && MemLogged(db) && ImmLogged(db) && LogsNamed(db) && Stored(db.st.version, db.disk.tables)
    requires db.pending == {} && db.pinned == [] && db.st.job.None? && ManifestOk(db) && db.curLog !in db.disk.torn
    requires !db.disk.manifest.torn && db.edit.None? && !db.down
    ensures DbInv(db)
  {
    hide Inv, MemLogged, ImmLogged, LogsNamed, Stored, ManifestOk;
  }

  lemma DbStepKeepsInv(db: Db, step: DbStep, db': Db)
    requires DbInv(db) && DbNext(db, step, db')
    ensures DbInv(db')
  {
    match step
    case Engine(s) => EngineStepKeeps(db, s, db');
    case AppendRecord => AppendKeeps(db, db');
    case WriteTable => WriteTableKeeps(db, db');
    case DeleteObsoleteFiles => DeleteKeeps(db, db');
    case Pin => PinKeeps(db, step, db');
    case Unpin(_) => PinKeeps(db, step, db');
    case AppendPart(_) => PartKeeps(db, step, db');
    case Crash => PartKeeps(db, step, db');
    case StartEdit(_) => EditKeeps(db, step, db');
    case EditPart(_) => EditKeeps(db, step, db');
    case AbortRecovery(_, _, _) => AbortKeeps(db, step, db');
    case Recover => CrashKeeps(db, db');
  }

  lemma PartKeeps(db: Db, step: DbStep, db': Db)
    requires DbInv(db) && DbNext(db, step, db') && (step.AppendPart? || step.Crash?)
    ensures DbInv(db')
  {
    hide Inv, VersionEntries, Written, Contents, Span, Stored;
  }

  /** An edit on its way leaves things as they are until all of it is there. */
  lemma EditKeeps(db: Db, step: DbStep, db': Db)
    requires DbInv(db) && DbNext(db, step, db') && (step.StartEdit? || step.EditPart?)
    ensures DbInv(db')
  {
    hide Inv, VersionEntries, Written, Contents, Span, Stored;
  }

  /** A recovery that crashes leaves nothing that matters. */
  lemma AbortKeeps(db: Db, step: DbStep, db': Db)
    requires DbInv(db) && DbNext(db, step, db') && step.AbortRecovery?
    ensures DbInv(db')
  {
    hide Inv, VersionEntries, MemLogged, ImmLogged, LogsNamed;
    RaiseNextFile(db.st, db'.st);
    AbortKeepsLogs(db, step, db');
  }

  lemma AbortKeepsLogs(db: Db, step: DbStep, db': Db)
    requires MemLogged(db) && ImmLogged(db) && LogsNamed(db) && DbNext(db, step, db') && step.AbortRecovery?
    ensures MemLogged(db') && ImmLogged(db') && LogsNamed(db')
  {
    hide LogsNamed, DbNext;
    AbortParts(db, step, db');
    MemLogIsThere(db);
    ImmLogIsThere(db);
    hide MemLogged, ImmLogged;
    SameMemLogged(db, db');
    SameImmLogged(db, db');
    AbortNamesLogs(db, step, db');
  }

  /** What a recovery that crashes leaves alone. */
  lemma AbortParts(db: Db, step: DbStep, db': Db)
    requires DbNext(db, step, db') && step.AbortRecovery?
    ensures db'.st == db.st.(nextFile := db'.st.nextFile) && db.st.nextFile <= db'.st.nextFile
    ensures db'.curLog == db.curLog && db'.immLog == db.immLog && db'.memStart == db.memStart
    ensures db'.immStart == db.immStart && db'.logged == db.logged
    ensures forall n :: n in db.disk.logs ==> n in db'.disk.logs && db'.disk.logs[n] == db.disk.logs[n]
  {
    hide EngineNext, Recovered;
  }

  lemma AbortNamesLogs(db: Db, step: DbStep, db': Db)
    requires LogsNamed(db) && DbNext(db, step, db') && step.AbortRecovery?
    ensures LogsNamed(db')
  {
    hide VersionEntries, UpTo, EngineNext, Recovered;
  }

  lemma RaiseNextFile(st: State, st': State)
    requires Inv(st) && st' == st.(nextFile := st'.nextFile) && st.nextFile <= st'.nextFile
    ensures Inv(st')
  {
    hide VersionEntries, VersionOk, AllOrdered, Sorted, AllNewer, JobOk, ReadsRight, Authentic, UpTo;
    assert Entries(st') == Entries(st);
    SameEntriesReadRight(st, st');
  }

  lemma PinKeeps(db: Db, step: DbStep, db': Db)
    requires DbInv(db) && DbNext(db, step, db') && (step.Pin? || step.Unpin?)
    ensures DbInv(db')
  {
    hide Inv, VersionEntries, Written, Contents, Span, Stored;
  }

  // ---------- recovery as the code does it ----------

  /** The logs to replay, oldest first. */
  method SortLogs(numbers: set<nat>, logNumber: nat) returns (ns: seq<nat>)
    ensures forall n :: n in ns <==> n in numbers && n >= logNumber
    ensures forall i, j :: 0 <= i < j < |ns| ==> ns[i] < ns[j]
  {
    ns := [];
    var left := set n | n in numbers && n >= logNumber;
    while left != {}
      invariant forall n :: n in ns || n in left <==> n in numbers && n >= logNumber
      invariant forall n, m :: n in ns && m in left ==> n < m
      invariant forall i, j :: 0 <= i < j < |ns| ==> ns[i] < ns[j]
      decreases left
    {
      var least := Least(left);
      assert forall i :: 0 <= i < |ns| ==> ns[i] in ns;
      ns := ns + [least];
      left := left - {least};
    }
  }

  method Least(s: set<nat>) returns (least: nat)
    requires s != {}
    ensures least in s && forall n :: n in s ==> least <= n
  {
    least :| least in s;
    var left := s - {least};
    while left != {}
      invariant least in s && left <= s && forall n :: n in s ==> n in left || least <= n
      decreases left
    {
      var n :| n in left;
      left := left - {n};
      if n < least { least := n; }
    }
  }

  /** How far the replay of the logs has come: the version, the memtable, the file counter, the tables on disk, the
      greatest sequence number seen, whether the manifest needs an edit, and whether the memtable and its log are
      kept. */
  datatype Progress = Progress(version: Version, mem: seq<Entry>, next: nat, tables: set<nat>, maxSequence: nat,
                               save: bool, reused: bool)

  /** Of the operations that survive, those up to `p` are in the version or the memtable. */
  ghost predicate At(db: Db, r: Progress, p: nat)
    requires Logged(db) <= |Ops(db.st)|
  {
    && Replayed(db.st.version, DurableOps(db), Flushed(db), r.version, r.mem, r.next, p)
    && Stored(r.version, r.tables)
  }

  /** A replayed memtable has become a table of level 0, unless it was empty; a file number is used either way. */
  ghost predicate TableWritten(r: Progress, size: nat, r': Progress) {
    && r' == r.(version := r'.version, mem := [], next := r.next + 1, tables := r'.tables)
    && if r.mem == [] then r'.version == r.version && r'.tables == r.tables
       else
         var f := FileMeta(r.next, size, r.mem[0].key, r.mem[|r.mem| - 1].key, r.mem);
         Added(r.version, 0, f, r'.version) && r'.tables == r.tables + {r.next}
  }

  /** Writes a replayed memtable as a level-0 table; there is no table if it is empty. */
  method WriteLevel0Table(r: Progress, size: nat, ghost db: Db, ghost p: nat) returns (r': Progress)
    requires Logged(db) <= |Ops(db.st)| && At(db, r, p)
    ensures At(db, r', p) && TableWritten(r, size, r')
  {
    hide VersionOk, VersionEntries, Sorted, AllNewer, Authentic, UpTo, Ordered, Written;
    ghost var v0, ops, from := db.st.version, DurableOps(db), Flushed(db);
    r' := r.(mem := [], next := r.next + 1);
    if r.mem == [] {
      ReplayedRaise(v0, ops, from, r.version, [], r.next, r'.next, p);
    } else {
      var f := FileMeta(r.next, size, r.mem[0].key, r.mem[|r.mem| - 1].key, r.mem);
      FreshTable(r.version, f);
      var v := LogAndApply(r.version, FlushEdit(0, f));
      EditAddsFile(r.version, 0, f, v);
      ReplayFlush(v0, ops, from, r.version, r.mem, r.next, p, f, v);
      r' := r'.(version := v, tables := r.tables + {r.next});
    }
  }

  lemma FreshTable(v: Version, f: FileMeta)
    requires |v| == NUM_LEVELS && forall l, g :: InLevel(v, l, g) ==> g.number < f.number
    ensures Fresh(v, FlushEdit(0, f))
  {
    var edit := FlushEdit(0, f);
    forall l: nat, x ensures AddsAt(edit, l, x) <==> l == 0 && x == f {
    }
    forall l: nat, x, g | 0 <= l < |v| && AddsAt(edit, l, x) && g in v[l] ensures x.number != g.number {
      assert InLevel(v, l, g);
    }
  }

  function Max(a: nat, b: nat): nat {
    if a < b then b else a
  }

  /** How many of the first `n` records are in tables: all up to the last one that filled a memtable. */
  function InTables(isFull: nat -> bool, n: nat): (m: nat)
    ensures m <= n
  {
    if n == 0 then 0 else if isFull(n - 1) then n else InTables(isFull, n - 1)
  }

  /** How many of the first `n` records filled a memtable. */
  function Fulls(isFull: nat -> bool, n: nat): nat {
    if n == 0 then 0 else Fulls(isFull, n - 1) + (if isFull(n - 1) then 1 else 0)
  }

  lemma {:induction false} FullsAre(isFull: nat -> bool, n: nat)
    ensures Fulls(isFull, n) == 0 <==> forall k: nat :: k < n ==> !isFull(k)
    ensures Fulls(isFull, n) == 0 <==> InTables(isFull, n) == 0
  {
    if n > 0 {
      FullsAre(isFull, n - 1);
    }
  }

  /** How many operations the first `n` records hold. */
  function OpsIn(records: seq<Record>, n: nat): nat
    requires n <= |records|
  {
    if n == 0 then 0 else OpsIn(records, n - 1) + |records[n - 1].ops|
  }

  /** Replays one log, writing a table whenever the memtable is said to be full.  There is a memtable from the first
      record on, and again from the first one after a table. */
  method ReplayRecords(records: seq<Record>, r: Progress, isFull: nat -> bool, sizes: nat -> nat,
                       ghost db: Db, ghost p: nat, ghost to: nat)
    returns (r': Progress, open: bool, compactions: nat)
    requires Logged(db) <= |Ops(db.st)| && At(db, r, p) && r.mem == [] && Span(records, DurableOps(db), p, to)
    ensures At(db, r', to) && compactions == Fulls(isFull, |records|) && r'.next == r.next + compactions
    ensures p + OpsIn(records, InTables(isFull, |records|)) <= to <= |DurableOps(db)|
    ensures Contents(r'.mem) == Written(DurableOps(db), p + OpsIn(records, InTables(isFull, |records|)), to)
    ensures r' == r.(version := r'.version, mem := r'.mem, next := r'.next, tables := r'.tables,
                     maxSequence := if records == [] then r.maxSequence else Max(r.maxSequence, to))
    ensures (open <==> InTables(isFull, |records|) < |records|) && (!open ==> r'.mem == [])
    ensures compactions == 0 ==> r'.version == r.version
  {
    hide At, MemInsert, Contents, Written, Span;
    r', open, compactions := r, false, 0;
    ghost var ops, q: nat := DurableOps(db), p;
    SpanBounds(records, ops, p, to);
    assert records[0..] == records;
    NothingWritten(ops, p);
    for i := 0 to |records|
      invariant Span(records[i..], ops, q, to) && p <= q <= to <= |ops|
      invariant At(db, r', q) && compactions == Fulls(isFull, i) && r'.next == r.next + compactions
      invariant r' == r.(version := r'.version, mem := r'.mem, next := r'.next, tables := r'.tables,
                         maxSequence := if i == 0 then r.maxSequence else Max(r.maxSequence, q))
      invariant q == p + OpsIn(records, i) && OpsIn(records, InTables(isFull, i)) <= OpsIn(records, i)
      invariant Contents(r'.mem) == Written(ops, p + OpsIn(records, InTables(isFull, i)), q)
      invariant (open <==> InTables(isFull, i) < i) && (!open ==> r'.mem == [])
      invariant compactions == 0 ==> r'.version == r.version
    {
      SpanNext(records, i, ops, q, to);
      r' := ReplayStep(records[i], isFull(i), sizes(i), r', db, p + OpsIn(records, InTables(isFull, i)), q);
      q := q + |records[i].ops|;
      open := !isFull(i);
      compactions := compactions + (if isFull(i) then 1 else 0);
    }
    assert records[|records|..] == [];
    EmptySpan(records[|records|..], ops, q, to);
  }

  /** One record enters the memtable, which becomes a table if that fills it. */
  method ReplayStep(record: Record, full: bool, size: nat, r: Progress, ghost db: Db, ghost from: nat, ghost q: nat)
    returns (r': Progress)
    requires Logged(db) <= |Ops(db.st)| && At(db, r, q) && from <= q
    requires Contents(r.mem) == Written(DurableOps(db), from, q)
    requires q + |record.ops| <= Logged(db) && record == Record(q + 1, DurableOps(db)[q..q + |record.ops|])
    ensures At(db, r', q + |record.ops|)
    ensures r' == r.(version := r'.version, mem := r'.mem, next := r.next + (if full then 1 else 0),
                     tables := r'.tables, maxSequence := Max(r.maxSequence, q + |record.ops|))
    ensures if full then r'.mem == [] else r'.version == r.version && r'.tables == r.tables
    ensures Contents(r'.mem)
         == Written(DurableOps(db), if full then q + |record.ops| else from, q + |record.ops|)
  {
    hide At, Contents, Written, Added;
    r' := ReplayRecord(record, r, db, q);
    WrittenSplit(DurableOps(db), from, q, q + |record.ops|);
    if full {
      r' := WriteLevel0Table(r', size, db, q + |record.ops|);
      NothingWritten(DurableOps(db), q + |record.ops|);
    }
  }

  lemma NothingWritten(ops: seq<Op>, p: nat)
    requires p <= |ops|
    ensures Contents([]) == Written(ops, p, p)
  {
    WrittenNone(ops, p);
    EmptyRun({});
  }

  lemma SpanNext(records: seq<Record>, i: nat, ops: seq<Op>, q: nat, to: nat)
    requires i < |records| && Span(records[i..], ops, q, to)
    ensures var end := q + |records[i].ops|;
            && end <= to <= |ops| && records[i] == Record(q + 1, ops[q..end]) && Span(records[i + 1..], ops, end, to)
  {
    assert records[i..][1..] == records[i + 1..];
    SpanBounds(records[i + 1..], ops, q + |records[i].ops|, to);
  }

  /** One record enters the memtable, and its last sequence number counts. */
  method ReplayRecord(record: Record, r: Progress, ghost db: Db, ghost p: nat) returns (r': Progress)
    requires Logged(db) <= |Ops(db.st)| && At(db, r, p)
    requires p + |record.ops| <= Logged(db) && record == Record(p + 1, DurableOps(db)[p..p + |record.ops|])
    ensures At(db, r', p + |record.ops|)
    ensures r' == r.(mem := r'.mem, maxSequence := Max(r.maxSequence, p + |record.ops|))
    ensures Contents(r'.mem) == Contents(r.mem) + Written(DurableOps(db), p, p + |record.ops|)
  {
    hide At, Contents, Written;
    var inserted := InsertBatch(record, r, db, p);
    r' := inserted;
    var last := record.first + |record.ops| - 1;
    if last > r'.maxSequence {
      r' := r'.(maxSequence := last);
    }
    SameProgress(db, inserted, r', p + |record.ops|);
  }

  lemma WrittenNone(ops: seq<Op>, p: nat)
    requires p <= |ops|
    ensures Written(ops, p, p) == {}
  {
    forall e ensures e !in Written(ops, p, p) { WrittenAre(ops, p, p, e); }
  }

  /** Only the version, the memtable, the counter and the tables matter. */
  lemma SameProgress(db: Db, r: Progress, r': Progress, p: nat)
    requires Logged(db) <= |Ops(db.st)| && At(db, r, p)
    requires r' == Progress(r.version, r.mem, r.next, r.tables, r'.maxSequence, r'.save, r'.reused)
    ensures At(db, r', p)
  {
    hide Replayed, Stored;
  }

  /** Inserts the operations of one batch with consecutive sequence numbers. */
  method InsertBatch(record: Record, r: Progress, ghost db: Db, ghost p: nat) returns (r': Progress)
    requires Logged(db) <= |Ops(db.st)| && At(db, r, p)
    requires p + |record.ops| <= Logged(db) && record == Record(p + 1, DurableOps(db)[p..p + |record.ops|])
    ensures At(db, r', p + |record.ops|) && r' == r.(mem := r'.mem)
    ensures Contents(r'.mem) == Contents(r.mem) + Written(DurableOps(db), p, p + |record.ops|)
  {
    hide Replayed, Stored, MemInsert, Contents, Written;
    ghost var ops := DurableOps(db);
    r' := r;
    WrittenNone(ops, p);
    for k := 0 to |record.ops|
      invariant At(db, r', p + k) && r' == r.(mem := r'.mem)
      invariant Contents(r'.mem) == Contents(r.mem) + Written(ops, p, p + k)
    {
      assert record.ops[k] == ops[p + k];
      ReplayInsert(db.st.version, ops, Flushed(db), r'.version, r'.mem, r'.next, p + k);
      InsertContents(r'.mem, EntryOf(ops[p + k], p + k + 1));
      WrittenOne(ops, p, p + k);
      r' := r'.(mem := MemInsert(r'.mem, EntryOf(record.ops[k], record.first + k)));
    }
  }

  /** How far the replay has come once the logs `done` have been read. */
  ghost function Position(db: Db, done: seq<nat>): nat {
    if db.curLog in done then Logged(db)
    else if db.st.imm.Some? && db.immLog in done then db.memStart
    else Flushed(db)
  }

  /** The logs to replay are those from the manifest's log number on, in order. */
  ghost predicate Listed(db: Db, ns: seq<nat>) {
    && (forall n :: n in ns <==> n in db.disk.logs && n >= db.disk.manifest.logNumber)
    && (forall a, b :: 0 <= a < b < |ns| ==> ns[a] < ns[b])
  }

  /** The next log in order goes on exactly where the replay stands. */
  lemma NextLog(db: Db, ns: seq<nat>, i: nat)
    requires DbInv(db) && LastSequence(db.st) <= Logged(db) <= |Ops(db.st)| && Listed(db, ns) && i < |ns|
    ensures ns[i] in db.disk.logs
    ensures Flushed(db) <= Position(db, ns[..i]) <= Position(db, ns[..i + 1])
    ensures Span(db.disk.logs[ns[i]], DurableOps(db), Position(db, ns[..i]), Position(db, ns[..i + 1]))
  {
    hide Inv, Contents, Written, TablesStored, VersionEntries, UpTo, ManifestOk, TornOk, EditOk;
    var n, ops := ns[i], DurableOps(db);
    assert n in ns;
    assert ns[..i + 1] == ns[..i] + [n];
    assert forall a :: 0 <= a < i ==> ns[a] < n;
    assert n !in ns[..i];
    if n == db.curLog {
      if db.st.imm.Some? {
        assert db.immLog in ns;
        EarlierIn(ns, i, db.immLog);
      }
      SpanRestrict(db.disk.logs[n], Ops(db.st), ops, db.memStart, Logged(db));
    } else if db.st.imm.Some? && n == db.immLog {
      assert db.st.history <= ops;
      assert db.curLog !in ns[..i + 1];
      SpanExtend(db.disk.logs[n], db.st.history, ops, db.immStart, db.memStart);
    } else {
      assert db.disk.logs[n] == [];
      assert Position(db, ns[..i + 1]) == Position(db, ns[..i]);
    }
  }

  lemma EarlierIn(ns: seq<nat>, i: nat, m: nat)
    requires (forall a, b :: 0 <= a < b < |ns| ==> ns[a] < ns[b]) && i < |ns| && m in ns && m < ns[i]
    ensures m in ns[..i]
  {
    var k :| 0 <= k < |ns| && ns[k] == m;
    assert k < i;
    assert ns[..i][k] == m;
  }

  /** What the loop over the logs has done once `i` of them are read.  `start` is where the memtable begins that is
      kept. */
  ghost predicate LoopAt(db: Db, ns: seq<nat>, i: nat, r: Progress, start: nat)
    requires Logged(db) <= |Ops(db.st)| && i <= |ns|
  {
    var p := Position(db, ns[..i]);
    && At(db, r, p)
    && db.disk.manifest.nextFile <= r.next && db.disk.manifest.logNumber < r.next
    && (forall k :: 0 <= k < i ==> ns[k] < r.next)
    && (!r.reused ==> r.mem == [])
    && (r.reused ==> KeptAt(db, ns, i, r, start))
    && (!r.save ==>
          && r.version == db.st.version && (if r.reused then start else p) == Flushed(db)
          && forall k :: 0 <= k < i && !(r.reused && k == i - 1) && ns[k] in db.disk.logs ==> db.disk.logs[ns[k]] == [])
    && r.maxSequence <= p && (p > Flushed(db) ==> r.maxSequence == p)
  }

  /** The last log is kept, and holds what its memtable does. */
  ghost predicate KeptAt(db: Db, ns: seq<nat>, i: nat, r: Progress, start: nat)
    requires Logged(db) <= |Ops(db.st)| && i <= |ns|
  {
    var p := Position(db, ns[..i]);
    && i == |ns| && 0 < i && start <= p <= Logged(db) && UpTo(VersionEntries(r.version), start)
    && Contents(r.mem) == Written(DurableOps(db), start, p)
    && ns[i - 1] in db.disk.logs && Span(db.disk.logs[ns[i - 1]], DurableOps(db), start, p)
  }

  lemma LoopStarts(db: Db, ns: seq<nat>, r: Progress)
    requires Logged(db) <= |Ops(db.st)| && At(db, r, Flushed(db))
    requires r == Progress(db.st.version, [], r.next, db.disk.tables, 0, r.save, false)
    requires db.disk.manifest.logNumber < db.disk.manifest.nextFile <= r.next
    ensures LoopAt(db, ns, 0, r, 0)
  {
    hide At;
    assert ns[..0] == [];
  }

  /** Until the last log is kept, the replay stands behind the logs read so far, with an empty memtable. */
  lemma LoopReplays(db: Db, ns: seq<nat>, i: nat, r: Progress, start: nat)
    requires Logged(db) <= |Ops(db.st)| && i <= |ns| && LoopAt(db, ns, i, r, start) && !r.reused
    ensures r.mem == [] && At(db, r, Position(db, ns[..i])) && LoopAt(db, ns, i, r, 0)
  {
    hide At;
  }

  /** Replays one log of those in `ns`.  The last one is kept for further writes, with the memtable replayed from it, if
      that is wanted and no table had to be written for it; otherwise what is left in the memtable is written. */
  method RecoverLogFile(number: nat, lastLog: bool, records: seq<Record>, r: Progress, isFull: nat -> bool,
                        sizes: nat -> nat, reuseLogs: bool, ghost db: Db, ghost ns: seq<nat>, ghost i: nat)
    returns (r': Progress, ghost start: nat)
    requires DbInv(db) && LastSequence(db.st) <= Logged(db) <= |Ops(db.st)| && Listed(db, ns)
    requires i < |ns| && number == ns[i] && number in db.disk.logs && records == db.disk.logs[number]
    requires (lastLog <==> i == |ns| - 1) && LoopAt(db, ns, i, r, 0) && !r.reused
    ensures LoopAt(db, ns, i + 1, r'.(next := MarkUsed(r'.next, number)), start)
    ensures r'.reused <==> reuseLogs && lastLog && Fulls(isFull, |records|) == 0
    ensures r'.save <==> r.save || (records != [] && !r'.reused)
    ensures r'.next == r.next + Fulls(isFull, |records|)
                       + (if !r'.reused && InTables(isFull, |records|) < |records| then 1 else 0)
  {
    hide DbInv, LoopAt, At, Span, MarkUsed, Written, Contents;
    NextLog(db, ns, i);
    LoopReplays(db, ns, i, r, 0);
    ghost var p, to := Position(db, ns[..i]), Position(db, ns[..i + 1]);
    SpanBounds(records, DurableOps(db), p, to);
    FullsAre(isFull, |records|);
    var replayed, open, compactions := ReplayRecords(records, r, isFull, sizes, db, p, to);
    r' := replayed.(save := r.save || compactions > 0);
    SameProgress(db, replayed, r', to);
    if reuseLogs && lastLog && compactions == 0 {
      r', start := r'.(reused := true), p;
      SameProgress(db, replayed, r', to);
      LoopKeeps(db, ns, i, r, r');
    } else {
      start := 0;
      if open {
        var written := WriteLevel0Table(replayed, sizes(|records|), db, to);
        r' := written.(save := true);
        SameProgress(db, written, r', to);
      }
      LoopGoesOn(db, ns, i, r, r');
    }
  }

  /** No record of a log fills the memtable. */
  ghost predicate NeverFull(isFull: (nat, nat) -> bool, log: nat, records: nat) {
    forall k: nat :: k < records ==> !isFull(log, k)
  }

  lemma NeverFullIs(isFull: (nat, nat) -> bool, full: nat -> bool, log: nat, records: nat)
    requires forall k: nat :: full(k) == isFull(log, k)
    ensures NeverFull(isFull, log, records) <==> Fulls(full, records) == 0
  {
    FullsAre(full, records);
  }

  ghost predicate IsLastLog(disk: Disk, last: nat) {
    last in disk.logs && forall n :: n in disk.logs ==> n <= last
  }

  /** An edit is written for a new manifest, or if a log that had records is not kept. */
  ghost predicate SaveNeeded(disk: Disk, keepManifest: bool, reused: bool, curLog: nat) {
    || !keepManifest
    || exists n :: n in disk.logs && n >= disk.manifest.logNumber && disk.logs[n] != [] && !(reused && n == curLog)
  }

  lemma SaveIs(disk: Disk, db: Db, ns: seq<nat>, keepManifest: bool, reused: bool, curLog: nat)
    requires disk == db.disk && Listed(db, ns) && |ns| > 0 && (reused ==> curLog == ns[|ns| - 1])
    ensures SaveNeeded(disk, keepManifest, reused, curLog)
       <==> !keepManifest || exists k :: 0 <= k < |ns| && HasRecords(disk, ns, k) && !(reused && k == |ns| - 1)
  {
    if n :| n in disk.logs && n >= disk.manifest.logNumber && disk.logs[n] != [] && !(reused && n == curLog) {
      assert n in ns;
      var k :| 0 <= k < |ns| && ns[k] == n;
      assert HasRecords(disk, ns, k);
    }
    if k :| 0 <= k < |ns| && HasRecords(disk, ns, k) && !(reused && k == |ns| - 1) {
      assert ns[k] in ns;
    }
  }

  ghost predicate HasRecords(disk: Disk, ns: seq<nat>, k: nat)
    requires k < |ns|
  {
    ns[k] in disk.logs && disk.logs[ns[k]] != []
  }

  lemma SaveGrows(disk: Disk, ns: seq<nat>, i: nat, before: bool, newManifest: bool, save: bool, reused: bool)
    requires i < |ns| && ns[i] in disk.logs
    requires before <==> newManifest || exists k :: 0 <= k < i && HasRecords(disk, ns, k)
    requires save <==> before || (disk.logs[ns[i]] != [] && !reused)
    ensures save <==> newManifest || exists k :: 0 <= k < i + 1 && HasRecords(disk, ns, k) && !(reused && k == i)
  {
    if before && !newManifest {
      var k :| 0 <= k < i && HasRecords(disk, ns, k);
    }
    assert HasRecords(disk, ns, i) <==> disk.logs[ns[i]] != [];
  }

  lemma LastListed(db: Db, ns: seq<nat>)
    requires Listed(db, ns) && |ns| > 0
    ensures IsLastLog(db.disk, ns[|ns| - 1])
  {
    assert ns[|ns| - 1] in ns;
    forall n | n in db.disk.logs ensures n <= ns[|ns| - 1] {
      if n >= db.disk.manifest.logNumber {
        NotAbove(ns, n);
      }
    }
  }

  /** The loop over the logs. */
  method ReplayLogs(disk: Disk, ns: seq<nat>, r0: Progress, isFull: (nat, nat) -> bool, sizes: (nat, nat) -> nat,
                    reuseLogs: bool, ghost db: Db)
    returns (r: Progress, ghost start: nat)
    requires DbInv(db) && LastSequence(db.st) <= Logged(db) <= |Ops(db.st)| && disk == db.disk
    requires Listed(db, ns) && |ns| > 0 && LoopAt(db, ns, 0, r0, 0) && !r0.reused
    ensures LoopAt(db, ns, |ns|, r, start)
    ensures r.save <==> r0.save || exists k :: 0 <= k < |ns| && HasRecords(disk, ns, k) && !(r.reused && k == |ns| - 1)
    ensures r.reused <==> reuseLogs && ns[|ns| - 1] in disk.logs
                          && NeverFull(isFull, ns[|ns| - 1], |disk.logs[ns[|ns| - 1]]|)
  {
    hide DbInv, LoopAt, MarkUsed, NeverFull, HasRecords, Fulls, InTables;
    r, start := r0, 0;
    for i := 0 to |ns|
      invariant LoopAt(db, ns, i, r, start) && (i == 0 ==> start == 0)
      invariant r.save <==> r0.save || exists k :: 0 <= k < i && HasRecords(disk, ns, k) && !(r.reused && k == i - 1)
      invariant r.reused <==> i == |ns| && reuseLogs && ns[i - 1] in disk.logs
                              && NeverFull(isFull, ns[i - 1], |disk.logs[ns[i - 1]]|)
    {
      LoopReplays(db, ns, i, r, start);
      assert ns[i] in ns;
      var log := ns[i];
      ghost var before := r.save;
      var full := (k: nat) => isFull(log, k);
      NeverFullIs(isFull, full, log, |disk.logs[log]|);
      r, start := RecoverLogFile(log, i == |ns| - 1, disk.logs[log], r, full, (k: nat) => sizes(log, k), reuseLogs, db,
                                 ns, i);
      r := r.(next := MarkUsed(r.next, log));
      SaveGrows(disk, ns, i, before, r0.save, r.save, r.reused);
    }
  }

  /** Opening the database after a crash, from what is on disk: the version and the manifest's counters, and every log
      from the manifest's log number on, replayed in order.  With `reuseLogs` the last log is kept for further writes if
      no table had to be written for it, and the manifest if it is small enough, whether they end inside a fragment or
      not; otherwise a new one is started. */
  method Recover(v: Version, disk: Disk, isFull: (nat, nat) -> bool, sizes: (nat, nat) -> nat, reuseLogs: bool,
                 manifestSmall: bool, ghost db: Db)
    returns (mem: seq<Entry>, v': Version, next: nat, lastSequence: nat, disk': Disk, curLog: nat, reused: bool,
             ghost db': Db)
    requires DbInv(db) && db.down && v == db.st.version && disk == db.disk
    ensures reused ==> curLog in disk.logs && forall n :: n in disk.logs ==> n <= curLog
    ensures exists last :: && IsLastLog(disk, last)
                           && (reused <==> reuseLogs && NeverFull(isFull, last, |disk.logs[last]|))
    ensures !reused ==> mem == [] && curLog + 1 == next && disk'.logs == disk.logs[curLog := []]
    ensures disk'.manifest.logNumber == if SaveNeeded(disk, reuseLogs && manifestSmall, reused, curLog) then curLog
                                        else disk.manifest.logNumber
    ensures !SaveNeeded(disk, reuseLogs && manifestSmall, reused, curLog) ==> disk'.manifest == disk.manifest
    ensures DbNext(db, DbStep.Recover, db')
       <==> !(reused && curLog in disk.torn) && !(reuseLogs && manifestSmall && disk.manifest.torn)
    ensures db'.st.mem == mem && db'.st.version == v' && db'.st.nextFile == next && db'.disk == disk'
    ensures db'.curLog == curLog
    ensures db'.st.history == if db.logged then db.st.history + db.st.inflight.value.ops else db.st.history
    ensures lastSequence == |db'.st.history|
  {
    hide At, Replayed, Stored, Span, DbInv, EngineNext, Next, Written, Contents, VersionEntries;
    DurableBounds(db);
    ghost var start: nat;
    var newManifest := !(reuseLogs && manifestSmall);
    var r := Progress(v, [], disk.manifest.nextFile + 1, disk.tables, 0, newManifest, false);
    assert At(db, r, Flushed(db)) by { ReplayStart(db, r.next); AtIs(db, r, Flushed(db)); }
    var ns := SortLogs(disk.logs.Keys, disk.manifest.logNumber);
    LogsToReplay(db, ns);
    LoopStarts(db, ns, r);
    hide LoopAt, Recovered, NeverFull, HasRecords, SaveNeeded, IsLastLog;
    r, start := ReplayLogs(disk, ns, r, isFull, sizes, reuseLogs, db);
    mem, v', reused := r.mem, r.version, r.reused;
    next, lastSequence, disk', curLog, db' := Open(r, disk, ns, newManifest, db, start);
    LastListed(db, ns);
    SaveIs(disk, db, ns, !newManifest, reused, curLog);
  }

  /** The end of `DB::Open`: a log to go on with, and the edit, if there is something to note. */
  method Open(r: Progress, disk: Disk, ns: seq<nat>, newManifest: bool, ghost db: Db, ghost start: nat)
    returns (next: nat, lastSequence: nat, disk': Disk, curLog: nat, ghost db': Db)
    requires DbInv(db) && db.down && disk == db.disk && LastSequence(db.st) <= Logged(db) <= |Ops(db.st)|
    requires Listed(db, ns) && |ns| > 0 && Position(db, ns) == Logged(db) && LoopAt(db, ns, |ns|, r, start)
    requires newManifest ==> r.save
    ensures r.reused ==> curLog in disk.logs && forall n :: n in disk.logs ==> n <= curLog
    ensures DbNext(db, DbStep.Recover, db')
       <==> !(r.reused && curLog in disk.torn) && !(!newManifest && disk.manifest.torn)
    ensures db'.st.mem == r.mem && db'.st.version == r.version && db'.st.nextFile == next && db'.disk == disk'
    ensures db'.curLog == curLog && db'.st.history == DurableOps(db) && lastSequence == |db'.st.history|
    ensures curLog == (if r.reused then ns[|ns| - 1] else r.next) && next == (if r.reused then r.next else r.next + 1)
    ensures disk' == Disk(if r.reused then disk.logs else disk.logs[curLog := []],
                          if r.reused then disk.torn else disk.torn - {curLog},
                          if r.save then Manifest(curLog, next, lastSequence, !newManifest && disk.manifest.torn)
                          else disk.manifest,
                          r.tables)
  {
    hide DbInv, LoopAt, Recovered, EngineNext;
    next := r.next;
    lastSequence := Max(disk.manifest.lastSequence, r.maxSequence);
    var logs, torn := disk.logs, disk.torn;
    if r.reused {
      curLog := ns[|ns| - 1];
      assert curLog in ns;
    } else {
      curLog := next;
      next := next + 1;
      logs, torn := logs[curLog := []], torn - {curLog};
    }
    var manifest := disk.manifest;
    if r.save {
      manifest := Manifest(curLog, next, lastSequence, !newManifest && manifest.torn);
    }
    disk' := Disk(logs, torn, manifest, r.tables);
    ghost var st' := State(DurableOps(db), db.st.floor, r.mem, None, r.version, next, [], None, None);
    db' := Db(st', disk', curLog, 0, false, if r.reused then start else Logged(db), 0, {}, [], None, false);
    RecoveredFits(db, ns, r, start, db');
  }

  lemma AtIs(db: Db, r: Progress, p: nat)
    requires Logged(db) <= |Ops(db.st)| && Stored(r.version, r.tables)
    requires Replayed(db.st.version, DurableOps(db), Flushed(db), r.version, r.mem, r.next, p)
    ensures At(db, r, p)
  {
    hide Replayed, Stored;
  }

  /** The last log is kept, with the memtable replayed from it. */
  lemma LoopKeeps(db: Db, ns: seq<nat>, i: nat, r: Progress, r': Progress)
    requires Logged(db) <= |Ops(db.st)| && i == |ns| - 1 && LoopAt(db, ns, i, r, 0) && !r.reused && r'.reused
    requires ns[i] in db.disk.logs && Flushed(db) <= Position(db, ns[..i]) <= Position(db, ns[..i + 1]) <= Logged(db)
    requires var p, to, records := Position(db, ns[..i]), Position(db, ns[..i + 1]), db.disk.logs[ns[i]];
             && Span(records, DurableOps(db), p, to) && Contents(r'.mem) == Written(DurableOps(db), p, to)
             && r'.maxSequence == (if records == [] then r.maxSequence else Max(r.maxSequence, to))
             && At(db, r', to)
    requires r.next <= r'.next && r'.version == r.version && r'.save == r.save
    ensures LoopAt(db, ns, i + 1, r'.(next := MarkUsed(r'.next, ns[i])), Position(db, ns[..i]))
  {
    hide Replayed, Stored, Span, Contents, Written, VersionEntries, UpTo;
    var p, to := Position(db, ns[..i]), Position(db, ns[..i + 1]);
    var ops, next := DurableOps(db), MarkUsed(r'.next, ns[i]);
    ReplayedRaise(db.st.version, ops, Flushed(db), r'.version, r'.mem, r'.next, next, to);
    assert r.mem == [];
    ReplayedUpTo(db.st.version, ops, Flushed(db), r.version, r.next, p);
    EmptySpan(db.disk.logs[ns[i]], ops, p, to);
  }

  /** The log's memtable, if there is one, has been written to a table. */
  lemma LoopGoesOn(db: Db, ns: seq<nat>, i: nat, r: Progress, r': Progress)
    requires Logged(db) <= |Ops(db.st)| && i < |ns| && LoopAt(db, ns, i, r, 0) && !r.reused && !r'.reused
    requires r'.mem == []
    requires ns[i] in db.disk.logs && Flushed(db) <= Position(db, ns[..i]) <= Position(db, ns[..i + 1]) <= Logged(db)
    requires var p, to, records := Position(db, ns[..i]), Position(db, ns[..i + 1]), db.disk.logs[ns[i]];
             && Span(records, DurableOps(db), p, to)
             && r'.maxSequence == (if records == [] then r.maxSequence else Max(r.maxSequence, to))
             && (!r'.save ==> !r.save && r'.version == r.version && records == [])
             && At(db, r', to)
    requires r.next <= r'.next
    ensures LoopAt(db, ns, i + 1, r'.(next := MarkUsed(r'.next, ns[i])), 0)
  {
    hide Replayed, Stored, Span, Contents, Written, VersionEntries, UpTo;
    var p, to := Position(db, ns[..i]), Position(db, ns[..i + 1]);
    var next := MarkUsed(r'.next, ns[i]);
    ReplayedRaise(db.st.version, DurableOps(db), Flushed(db), r'.version, [], r'.next, next, to);
    EmptySpan(db.disk.logs[ns[i]], DurableOps(db), p, to);
  }

  lemma EmptySpan(records: seq<Record>, ops: seq<Op>, p: nat, to: nat)
    requires Span(records, ops, p, to)
    ensures records == [] ==> p == to
  {
  }

  lemma ReplayedUpTo(v0: Version, ops: seq<Op>, from: nat, v: Version, next: nat, p: nat)
    requires Replayed(v0, ops, from, v, [], next, p)
    ensures UpTo(VersionEntries(v), p)
  {
    hide VersionOk, AllOrdered, VersionEntries, Sorted, AllNewer, Authentic;
  }

  lemma DurableBounds(db: Db)
    requires DbInv(db)
    ensures LastSequence(db.st) <= Logged(db) <= |Ops(db.st)|
    ensures Stored(db.st.version, db.disk.tables) && db.disk.manifest.logNumber < db.disk.manifest.nextFile
    ensures DurableOps(db) == if db.logged then db.st.history + db.st.inflight.value.ops else db.st.history
  {
    hide Inv, Stored, Span, Written, Contents, VersionEntries;
  }

  lemma LogsToReplay(db: Db, ns: seq<nat>)
    requires DbInv(db) && Listed(db, ns)
    ensures |ns| > 0 && Position(db, ns) == Logged(db)
  {
    hide Inv, Stored, Span, Written, Contents, VersionEntries, TablesStored;
    assert db.curLog in ns;
  }

  lemma ReplayedRaise(v0: Version, ops: seq<Op>, from: nat, v: Version, mem: seq<Entry>, next: nat, next': nat, p: nat)
    requires Replayed(v0, ops, from, v, mem, next, p) && next <= next'
    ensures Replayed(v0, ops, from, v, mem, next', p)
  {
    hide VersionOk, AllOrdered, VersionEntries, Sorted, AllNewer, Authentic, UpTo;
  }

  /** What recovery makes of the progress after the last log. */
  ghost predicate OpenedAs(db: Db, ns: seq<nat>, r: Progress, start: nat, db': Db)
    requires Logged(db) <= |Ops(db.st)|
  {
    && |ns| > 0 && Position(db, ns) == Logged(db) && LoopAt(db, ns, |ns|, r, start)
    && db'.st == State(DurableOps(db), db.st.floor, r.mem, None, r.version, db'.st.nextFile, [], None, None)
    && db' == Db(db'.st, db'.disk, db'.curLog, 0, false, if r.reused then start else Logged(db), 0, {}, [], None, false)
    && db'.st.nextFile == (if r.reused then r.next else r.next + 1)
    && db'.curLog == (if r.reused then ns[|ns| - 1] else r.next)
    && db'.disk.logs == (if r.reused then db.disk.logs else db.disk.logs[db'.curLog := []])
    && db'.disk.torn == (if r.reused then db.disk.torn else db.disk.torn - {db'.curLog})
    && db'.disk.tables == r.tables
    && db'.disk.manifest.logNumber == (if r.save then db'.curLog else db.disk.manifest.logNumber)
    && db'.disk.manifest.nextFile == (if r.save then db'.st.nextFile else db.disk.manifest.nextFile)
    && db'.disk.manifest.lastSequence ==
         (if r.save then Max(db.disk.manifest.lastSequence, r.maxSequence) else db.disk.manifest.lastSequence)
  }

  lemma RecoveredFits(db: Db, ns: seq<nat>, r: Progress, start: nat, db': Db)
    requires DbInv(db) && db.down && LastSequence(db.st) <= Logged(db) <= |Ops(db.st)| && Listed(db, ns)
    requires OpenedAs(db, ns, r, start, db')
    ensures Max(db.disk.manifest.lastSequence, r.maxSequence) == Logged(db)
    ensures Recovered(db, db') <==> db'.curLog !in db'.disk.torn && !db'.disk.manifest.torn
    ensures r.reused ==> forall n :: n in db.disk.logs ==> n <= db'.curLog
  {
    hide Replayed, Stored, Span, Contents, Written, VersionEntries, UpTo, Inv, ImmLogged, MemLogged, LogsNamed;
    hide TablesStored, ManifestOk, EditOk;
    assert ns[..|ns|] == ns;
    DurableBounds(db);
    LastIsMax(db, ns, r, start);
    ReplayedRaise(db.st.version, DurableOps(db), Flushed(db), r.version, r.mem, r.next, db'.st.nextFile, Logged(db));
    RecoveredMem(DurableOps(db), db');
    forall n | n in db.disk.logs ensures if r.reused then n <= db'.curLog else n < db'.curLog {
      if n >= db.disk.manifest.logNumber {
        NotAbove(ns, n);
      }
    }
    assert r.reused ==> db'.curLog in ns;
    assert LogsNamed(db') by { RecoveredLogs(db, ns, r, start, db'); }
    assert ManifestOk(db') by { RecoveredCounters(db, ns, r, start, db'); }
  }

  lemma NotAbove(ns: seq<nat>, n: nat)
    requires (forall a, b :: 0 <= a < b < |ns| ==> ns[a] < ns[b]) && n in ns
    ensures |ns| > 0 && n <= ns[|ns| - 1]
  {
  }

  /** The last sequence number is found, in the logs or in the manifest. */
  lemma LastIsMax(db: Db, ns: seq<nat>, r: Progress, start: nat)
    requires LastSequence(db.st) <= Logged(db) <= |Ops(db.st)|
    requires ManifestOk(db) && ns[..|ns|] == ns && Position(db, ns) == Logged(db) && LoopAt(db, ns, |ns|, r, start)
    ensures Max(db.disk.manifest.lastSequence, r.maxSequence) == Logged(db)
    ensures Flushed(db) <= Logged(db)
  {
    hide Stored, Span, Contents, Written, VersionEntries, UpTo, VersionOk, AllOrdered, AllNewer, Authentic, Sorted;
  }

  /** The memtable is what its log holds. */
  lemma RecoveredMem(ops: seq<Op>, db': Db)
    requires db'.st.history == ops && db'.st.inflight == None && !db'.logged && db'.memStart <= |ops|
    requires db'.curLog in db'.disk.logs
    requires || (&& Contents(db'.st.mem) == Written(ops, db'.memStart, |ops|)
                 && Span(db'.disk.logs[db'.curLog], ops, db'.memStart, |ops|))
             || (db'.st.mem == [] && db'.disk.logs[db'.curLog] == [] && db'.memStart == |ops|)
    ensures MemLogged(db')
  {
    hide Written;
    assert Ops(db'.st) == ops && Logged(db') == |ops| && Inserted(db'.st) == 0;
    if db'.st.mem == [] && db'.memStart == |ops| {
      WrittenNone(ops, |ops|);
      assert Contents(db'.st.mem) == {};
    }
  }

  lemma RecoveredLogs(db: Db, ns: seq<nat>, r: Progress, start: nat, db': Db)
    requires Logged(db) <= |Ops(db.st)| && LogsNamed(db) && MemLogged(db) && ns[..|ns|] == ns && Listed(db, ns)
    requires OpenedAs(db, ns, r, start, db')
    ensures LogsNamed(db')
  {
    hide Stored, Span, Contents, Written, VersionEntries, VersionOk, AllOrdered, AllNewer, Authentic, Sorted;
    forall n | n in db.disk.logs ensures n < r.next {
      if n >= db.disk.manifest.logNumber {
        assert n in ns;
      }
    }
    forall n | n in db'.disk.logs && db'.disk.manifest.logNumber <= n && n != db'.curLog
      ensures db'.disk.logs[n] == []
    {
      assert n in db.disk.logs && n >= db.disk.manifest.logNumber;
      assert n in ns;
      NotAbove(ns, n);
      var k :| 0 <= k < |ns| && ns[k] == n;
      assert db.disk.logs[ns[k]] == [];
    }
  }

  lemma RecoveredCounters(db: Db, ns: seq<nat>, r: Progress, start: nat, db': Db)
    requires LastSequence(db.st) <= Logged(db) <= |Ops(db.st)| && ManifestOk(db) && ns[..|ns|] == ns
    requires OpenedAs(db, ns, r, start, db') && Max(db.disk.manifest.lastSequence, r.maxSequence) == Logged(db)
    ensures ManifestOk(db')
  {
    hide Stored, Span, Contents, Written, VersionEntries, VersionOk, AllOrdered, AllNewer, Authentic, Sorted, UpTo;
  }

  // ---------- runs with crashes ----------

  const FRESH_DB: Db :=
    Db(EMPTY.(nextFile := 2), Disk(map[1 := []], {}, Manifest(1, 2, 0, false), {}), 1, 0, false, 0, 0, {}, [], None,
       false)

  ghost predicate IsDbRun(run: seq<Db>, steps: seq<DbStep>) {
    && |run| == |steps| + 1
    && run[0] == FRESH_DB
    && forall i :: 0 <= i < |steps| ==> DbNext(run[i], steps[i], run[i + 1])
  }

  lemma FreshDbInv()
    ensures DbInv(FRESH_DB)
  {
    hide Inv, VersionEntries;
    InitInv();
    assert Next(EMPTY, NewFileNumber, FRESH_DB.st);
    StepKeepsInv(EMPTY, NewFileNumber, FRESH_DB.st);
    WrittenNone([], 0);
    EmptyVersionOk();
    assert Contents(FRESH_DB.st.mem) == {};
    forall l: nat, f ensures !InLevel(NO_FILES, l, f) {
      if l < NUM_LEVELS { EmptyLevel(l); }
    }
  }

  lemma {:induction false} DbRunsKeepInv(run: seq<Db>, steps: seq<DbStep>, n: nat)
    requires IsDbRun(run, steps) && n < |run|
    ensures DbInv(run[n])
  {
    hide DbInv, DbNext;
    if n == 0 {
      FreshDbInv();
    } else {
      DbRunsKeepInv(run, steps, n - 1);
      DbStepKeepsInv(run[n - 1], steps[n - 1], run[n]);
    }
  }

  /** The published history only grows, also across crashes: what was acknowledged stays. */
  lemma {:induction false} AcknowledgedStays(run: seq<Db>, steps: seq<DbStep>, i: nat, j: nat)
    requires IsDbRun(run, steps) && i <= j < |run|
    ensures run[i].st.history <= run[j].st.history
  {
    hide DbInv, DbNext;
    if i < j {
      AcknowledgedStays(run, steps, i, j - 1);
      DbRunsKeepInv(run, steps, j - 1);
      HistoryGrows(run[j - 1], steps[j - 1], run[j]);
    }
  }

  lemma HistoryGrows(db: Db, step: DbStep, db': Db)
    requires DbInv(db) && DbNext(db, step, db')
    ensures db.st.history <= db'.st.history
    ensures step.Recover? ==>
              db'.st.history == db.st.history
              || (db.logged && db'.st.history == db.st.history + db.st.inflight.value.ops)
    ensures step.Recover? && db.logged ==> db'.st.history == db.st.history + db.st.inflight.value.ops
  {
    hide Inv, Span, Written, Contents, Stored, Replayed, LogsNamed, OutputsOk, Replaced, Ready, Applied;
    DurableBounds(db);
  }
}
