/** The bytes of the manifest of a running database: what opening it gives in every state of every run.

    `Durability` speaks of the manifest as of its counters and the version they belong to, and of whether its file ends
    inside a record.  Here the manifest has its bytes, an edit reaches them piece by piece, and the two are shown to say
    the same (db/version_set.cc `LogAndApply`, `Recover`). */
module ManifestFiles {
  import opened InternalKeys
  import opened Files
  import opened Versions
  import opened InputSelection
  import opened Edits
  import opened Installing
  import opened CompactionMeaning
  import opened Flushing
  import opened Engine
  import opened EngineInvariant
  import opened Durability
  import opened Recovery
  import opened Masking
  import opened LogFormat
  import opened LogReading
  import opened QuietReuse
  import opened LogAppending
  import opened Manifests

  /** The record of an edit. */
  function EditBytes(e: Fields, order: seq<(nat, nat)>): Bytes {
    EditCoding.EncodeFields(EditCoding.FieldsOf(e, order))
  }

  /** The file, what it was before the edit being written, the edits in it, and the versions they led to. */
  datatype Pages = Pages(file: Bytes, base: Bytes, es: seq<Fields>, orders: seq<seq<(nat, nat)>>, chain: seq<Version>)

  /** What is the same throughout the life of a database: the comparator's name, how keys read, and the contents and
      size of each table that the manifest names. */
  datatype Facts = Facts(comparator: Bytes, reading: Reading, sizes: nat -> nat)

  /** The steps that end an edit. */
  predicate EndsEdit(s: Step) {
    s.Flush? || s.FlushNothing? || s.FinishCompaction? || s.TrivialMove?
  }

  /** The edit that such a step writes. */
  function EditOfStep(st: State, s: Step): VersionEdit {
    match s
    case Flush(level, f) => FlushEdit(level, f)
    case FinishCompaction(outputs) =>
      if st.job.Some? then CompactionEdit(st.job.value, outputs) else VersionEdit({}, [])
    case TrivialMove(level, f, _) => CompactionEdit(Job(level, [f], [], st.version, 0), [f])
    case _ => VersionEdit({}, [])
  }

  /** The table of a named file is what the facts say. */
  predicate Known(f: FileMeta, facts: Facts) {
    && f.size == facts.sizes(f.number) && f.entries == facts.reading.contents(f.number)
    && f.entries != [] && f.smallest == f.entries[0].key && f.largest == f.entries[|f.entries| - 1].key
  }

  /** The fields can be encoded, stand for this edit, and set these counters. */
  ghost predicate Carries(e: Fields, order: seq<(nat, nat)>, edit: VersionEdit, m: Manifest, facts: Facts) {
    && EditCoding.EditOk(e, order) && EditOf(e, facts.reading) == edit
    && (e.comparator.None? || e.comparator == Some(facts.comparator))
    && e.logNumber == Some(m.logNumber) && e.nextFile == Some(m.nextFile) && e.lastSequence == Some(m.lastSequence)
    && forall p :: p in edit.added ==> p.1.size == facts.sizes(p.1.number)
  }

  /** One more edit behind the bytes `from`. */
  function Extended(p: Pages, from: Bytes, e: Fields, order: seq<(nat, nat)>, v: Version): Pages {
    Pages(from + Appended(from, EditBytes(e, order)), from, p.es + [e], p.orders + [order], p.chain + [v])
  }

  /** A part of an edit's record behind the bytes `from`. */
  ghost predicate PartOf(from: Bytes, file: Bytes) {
    exists data: Bytes, j :: 0 <= j < |Appended(from, data)| && file == from + Appended(from, data)[..j]
  }

  /** What a step does to the manifest. */
  ghost predicate PagesNext(db: Db, p: Pages, step: DbStep, db': Db, p': Pages, facts: Facts) {
    match step
    case StartEdit(_) => p' == p.(base := p.file)
    case EditPart(quiet) => PartOf(p.base, p'.file) && p' == p.(file := p'.file) && (quiet <==> EndsQuietly(p'.file))
    case Engine(s) =>
      if EndsEdit(s) then
        exists e, order ::
          && Carries(e, order, EditOfStep(db.st, s), db'.disk.manifest, facts)
          && p' == Extended(p, p.base, e, order, db'.st.version)
      else p' == p
    case AbortRecovery(_, _, tear) =>
      || (!tear && p' == p)
      || (&& !db.disk.manifest.torn && PartOf(p.file, p'.file) && p' == p.(file := p'.file)
          && (tear <==> !EndsQuietly(p'.file)))
    case Recover => Reopened(db, p, db', p', facts)
    case _ => p' == p
  }

  /** Recovery has nothing to note, or goes on with the manifest, or starts a new one with a snapshot. */
  ghost predicate Reopened(db: Db, p: Pages, db': Db, p': Pages, facts: Facts) {
    || (p' == p && db'.st.version == db.st.version && db'.disk.manifest == db.disk.manifest)
    || (!db.disk.manifest.torn && exists e, order, edit ::
          && Applied(db.st.version, edit, db'.st.version) && Carries(e, order, edit, db'.disk.manifest, facts)
          && p' == Extended(p, p.file, e, order, db'.st.version))
    || (exists s, snapshotOrder, e, order, edit ::
          && IsSnapshot(s, snapshotOrder, db.st.version, facts)
          && Applied(db.st.version, edit, db'.st.version) && Carries(e, order, edit, db'.disk.manifest, facts)
          && p' == Fresh(s, snapshotOrder, e, order, db.st.version, db'.st.version))
  }

  ghost predicate IsSnapshot(s: Fields, order: seq<(nat, nat)>, v: Version, facts: Facts) {
    && EditCoding.EditOk(s, order) && EditOf(s, facts.reading) == VersionEdit({}, AllFiles(v, 0))
    && s.comparator == Some(facts.comparator)
  }

  function Fresh(s: Fields, snapshotOrder: seq<(nat, nat)>, e: Fields, order: seq<(nat, nat)>, v: Version, v': Version)
    : Pages
  {
    Pages(LogBytes([EditBytes(s, snapshotOrder), EditBytes(e, order)]), [], [s, e], [snapshotOrder, order],
          [NO_FILES, v, v'])
  }

  ghost predicate AllKnown(es: seq<Fields>, facts: Facts) {
    forall i, p :: 0 <= i < |es| && p in EditOf(es[i], facts.reading).added ==> Known(p.1, facts)
  }

  ghost predicate VersionKnown(v: Version, facts: Facts) {
    forall l, f :: InLevel(v, l, f) ==> Known(f, facts)
  }

  /** The edits lead from no files to the version, and set the counters. */
  ghost predicate Tells(v: Version, m: Manifest, p: Pages, facts: Facts) {
    && |p.orders| == |p.es|
    && (forall i :: 0 <= i < |p.es| ==> EditCoding.EditOk(p.es[i], p.orders[i]))
    && (forall i :: 0 <= i < |p.es| ==> p.es[i].comparator.None? || p.es[i].comparator == Some(facts.comparator))
    && Installs(p.chain, EditsOf(p.es, facts.reading)) && p.chain[|p.es|] == v
    && AllKnown(p.es, facts) && VersionKnown(v, facts)
    && LastSet(p.es, LOG_NUMBER) == Some(m.logNumber) && LastSet(p.es, Manifests.NEXT_FILE) == Some(m.nextFile)
    && LastSet(p.es, LAST_SEQUENCE) == Some(m.lastSequence)
  }

  /** The bytes read as these edits, without a report. */
  ghost predicate ReadsAs(file: Bytes, p: Pages)
    requires |p.orders| == |p.es|
  {
    ReadsQuietly(file, EditRecords(p.es, p.orders))
  }

  ghost predicate PagesOk(db: Db, p: Pages, facts: Facts) {
    && Tells(db.st.version, db.disk.manifest, p, facts)
    && ReadsAs(p.file, p)
    && (!db.disk.manifest.torn ==> EndsQuietly(p.file))
    && (db.edit.Some? ==> EndsQuietly(p.base) && ReadsAs(p.base, p))
  }

  // ---------- one more edit ----------

  /** Files that are known and have one number are one. */
  lemma KnownAreOne(es: seq<Fields>, facts: Facts)
    requires AllKnown(es, facts)
    ensures NumbersName(EditsOf(es, facts.reading))
  {
    var edits := EditsOf(es, facts.reading);
    forall l: nat, f, g, i, j | 0 <= i < |edits| && 0 <= j < |edits| && AddsAt(edits[i], l, f) && AddsAt(edits[j], l, g)
                           && f.number == g.number
      ensures f == g
    {
      assert edits[i] == EditOf(es[i], facts.reading) && edits[j] == EditOf(es[j], facts.reading);
      assert (l, f) in EditOf(es[i], facts.reading).added && (l, g) in EditOf(es[j], facts.reading).added;
    }
  }

  /** What an edit adds is in the version it leads to. */
  lemma AddedKnown(v: Version, edit: VersionEdit, v': Version, e: Fields, order: seq<(nat, nat)>, m: Manifest,
                   facts: Facts)
    requires VersionKnown(v, facts) && Applied(v, edit, v') && Carries(e, order, edit, m, facts)
    requires forall l, f :: InLevel(v', l, f) ==> ValidFile(f)
    ensures VersionKnown(v', facts) && forall p :: p in edit.added ==> Known(p.1, facts)
  {
    LevelsOf(e, order, facts.reading);
    forall p | p in edit.added ensures Known(p.1, facts) {
      assert AddsAt(edit, p.0, p.1) && p.0 < NUM_LEVELS;
      assert LevelApplied(v[p.0], edit, p.0, v'[p.0]);
      assert InLevel(v', p.0, p.1);
      var i :| 0 <= i < |e.added| && p == EditOf(e, facts.reading).added[i];
    }
    forall l: nat, f | InLevel(v', l, f) ensures Known(f, facts) {
      assert LevelApplied(v[l], edit, l, v'[l]);
      if AddsAt(edit, l, f) {
        assert (l, f) in edit.added;
      } else {
        assert InLevel(v, l, f);
      }
    }
  }

  lemma TellsMore(v: Version, m: Manifest, p: Pages, e: Fields, order: seq<(nat, nat)>, edit: VersionEdit, v': Version,
                  m': Manifest, p': Pages, facts: Facts)
    requires Tells(v, m, p, facts) && Applied(v, edit, v') && Carries(e, order, edit, m', facts)
    requires forall l, f :: InLevel(v', l, f) ==> ValidFile(f)
    requires p'.es == p.es + [e] && p'.orders == p.orders + [order] && p'.chain == p.chain + [v']
    ensures Tells(v', m', p', facts)
  {
    hide EditCoding.EditOk, Applied, Known, ValidFile, LastSet;
    AddedKnown(v, edit, v', e, order, m', facts);
    var edits, edits' := EditsOf(p.es, facts.reading), EditsOf(p'.es, facts.reading);
    forall i | 0 <= i < |edits'| ensures Applied(p'.chain[i], edits'[i], p'.chain[i + 1]) {
      if i < |edits| {
        assert edits'[i] == edits[i];
      } else {
        assert edits'[i] == edit;
      }
    }
    LastIs(p.es, e, LOG_NUMBER);
    LastIs(p.es, e, Manifests.NEXT_FILE);
    LastIs(p.es, e, LAST_SEQUENCE);
  }

  lemma LastIs(es: seq<Fields>, e: Fields, get: Fields -> Option<nat>)
    ensures get(e).Some? ==> LastSet(es + [e], get) == get(e)
  {
  }

  lemma RecordsMore(p: Pages, e: Fields, order: seq<(nat, nat)>)
    requires |p.orders| == |p.es|
    ensures EditRecords(p.es + [e], p.orders + [order]) == EditRecords(p.es, p.orders) + [EditBytes(e, order)]
  {
  }

  /** Appending the record of an edit. */
  lemma ExtendKeeps(v: Version, m: Manifest, p: Pages, from: Bytes, e: Fields, order: seq<(nat, nat)>,
                    edit: VersionEdit, v': Version, m': Manifest, facts: Facts)
    requires Tells(v, m, p, facts) && EndsQuietly(from) && ReadsAs(from, p)
    requires Applied(v, edit, v') && Carries(e, order, edit, m', facts)
    requires forall l, f :: InLevel(v', l, f) ==> ValidFile(f)
    ensures var p' := Extended(p, from, e, order, v');
            Tells(v', m', p', facts) && EndsQuietly(p'.file) && ReadsAs(p'.file, p')
  {
    hide Tells, Carries, Applied, EndsQuietly, ReadsQuietly, Appended, EditBytes, EditRecords, ValidFile;
    var p' := Extended(p, from, e, order, v');
    TellsMore(v, m, p, e, order, edit, v', m', p', facts);
    assert |p.orders| == |p.es| by { SameLength(v, m, p, facts); }
    AppendReadsQuietly(from, EditBytes(e, order), EditRecords(p.es, p.orders));
    RecordsMore(p, e, order);
  }

  lemma SameLength(v: Version, m: Manifest, p: Pages, facts: Facts)
    requires Tells(v, m, p, facts)
    ensures |p.orders| == |p.es|
  {
  }

  /** A new manifest: the snapshot, and the edit of the recovery. */
  lemma FreshKeeps(s: Fields, snapshotOrder: seq<(nat, nat)>, v: Version, e: Fields, order: seq<(nat, nat)>,
                   edit: VersionEdit, v': Version, m': Manifest, facts: Facts)
    requires VersionKnown(v, facts) && AllOrdered(v) && IsSnapshot(s, snapshotOrder, v, facts)
    requires Applied(v, edit, v') && Carries(e, order, edit, m', facts)
    requires forall l, f :: InLevel(v', l, f) ==> ValidFile(f)
    ensures var p' := Fresh(s, snapshotOrder, e, order, v, v');
            Tells(v', m', p', facts) && EndsQuietly(p'.file) && ReadsAs(p'.file, p')
  {
    hide Applied, Known, EditCoding.EditOk, EditCoding.EncodeFields, EditCoding.FieldsOf, LastSet, AllFiles, ValidFile;
    hide EndsQuietly, ReadsQuietly, AllOrdered, LogBytes;
    var p' := Fresh(s, snapshotOrder, e, order, v, v');
    SnapshotIsVersion(v);
    AddedKnown(v, edit, v', e, order, m', facts);
    var edits := EditsOf(p'.es, facts.reading);
    assert edits[0] == VersionEdit({}, AllFiles(v, 0)) && edits[1] == edit;
    forall q | q in AllFiles(v, 0) ensures Known(q.1, facts) {
      AllFilesAre(v, 0, q.0, q.1);
    }
    forall i | 0 <= i < 2 ensures Applied(p'.chain[i], edits[i], p'.chain[i + 1]) {
      assert i == 0 || i == 1;
    }
    assert Installs(p'.chain, edits);
    forall i, q | 0 <= i < 2 && q in EditOf(p'.es[i], facts.reading).added ensures Known(q.1, facts) {
      assert i == 0 || i == 1;
    }
    assert AllKnown(p'.es, facts);
    WrittenEndsQuietly([EditBytes(s, snapshotOrder), EditBytes(e, order)]);
    assert EditRecords(p'.es, p'.orders) == [EditBytes(s, snapshotOrder), EditBytes(e, order)];
    assert p'.es == [s] + [e];
    LastIs([s], e, LOG_NUMBER);
    LastIs([s], e, Manifests.NEXT_FILE);
    LastIs([s], e, LAST_SEQUENCE);
  }

  // ---------- steps ----------

  lemma AddedIsApplied(v: Version, level: nat, f: FileMeta, v': Version)
    requires AllOrdered(v) && Added(v, level, f, v') && level < NUM_LEVELS
    ensures Applied(v, FlushEdit(level, f), v')
  {
    hide Ordered;
    var edit := FlushEdit(level, f);
    forall l: nat | l < NUM_LEVELS ensures LevelApplied(v[l], edit, l, v'[l]) {
      forall g ensures g in v'[l] <==> (g in v[l] && g.number !in DeletedAt(edit, l)) || AddsAt(edit, l, g) {
        assert g in v'[l] <==> InLevel(v', l, g);
        assert g in v[l] <==> InLevel(v, l, g);
        assert AddsAt(edit, l, g) <==> l == level && g == f;
      }
    }
  }

  lemma ReplacedIsApplied(v: Version, job: Job, outputs: seq<FileMeta>, v': Version)
    requires VersionOk(v) && JobOk(v, job) && Replaced(v, job, outputs, v')
    ensures Applied(v, CompactionEdit(job, outputs), v')
  {
    hide VersionEntries, LevelOrder, Newer, ValidFiles, SortedLevel, LeftOutNewer, Room, Ordered;
    var edit := CompactionEdit(job, outputs);
    forall l: nat | l < NUM_LEVELS ensures LevelApplied(v[l], edit, l, v'[l]) {
      forall g ensures g in v'[l] <==> (g in v[l] && g.number !in DeletedAt(edit, l)) || AddsAt(edit, l, g) {
        assert g in v'[l] <==> InLevel(v', l, g);
        EditAdds(job, outputs, l, g);
        if InLevel(v, l, g) {
          EditDeletes(v, job, outputs, l, g);
        }
      }
    }
  }

  /** What the state machine says of such a step is what applying its edit gives. */
  lemma StepApplies(st: State, s: Step, st': State)
    requires Inv(st) && Next(st, s, st') && EndsEdit(s)
    ensures Applied(st.version, EditOfStep(st, s), st'.version)
  {
    hide VersionOk, AllOrdered, Added, Replaced, Applied, OutputsOk, OutputsClear, NoResurrection, Ready, PlacedClear;
    hide ValidFile, ReadsRight, JobOk, AllNewer, Authentic, UpTo, Sorted;
    match s
    case Flush(level, f) => AddedIsApplied(st.version, level, f, st'.version);
    case FlushNothing => NothingApplied(st.version);
    case FinishCompaction(outputs) => ReplacedIsApplied(st.version, st.job.value, outputs, st'.version);
    case TrivialMove(_, _, _) =>
  }

  lemma NothingApplied(v: Version)
    requires AllOrdered(v)
    ensures Applied(v, VersionEdit({}, []), v)
  {
    hide Ordered;
  }

  lemma FilesValid(st: State)
    requires Inv(st)
    ensures AllOrdered(st.version) && forall l, f :: InLevel(st.version, l, f) ==> ValidFile(f)
  {
    hide ValidFile, AllOrdered, SortedLevel, LevelOrder, UniqueNumbers, ReadsRight, JobFits, AllNewer;
    hide Authentic, UpTo, Sorted;
  }

  lemma SameVersion(db: Db, step: DbStep, db': Db)
    requires DbNext(db, step, db') && !step.Recover? && !(step.Engine? && EndsEdit(step.step))
    ensures db'.st.version == db.st.version
    ensures !step.EditPart? && !step.AbortRecovery? ==> db'.disk.manifest == db.disk.manifest
    ensures !step.StartEdit? && !step.Crash? ==> db'.edit == db.edit
  {
    hide OutputsOk, OutputsClear, Replaced, NoResurrection, Ready, Applied, Added, PlacedClear, ValidFile, LiveTable;
  }

  /** The counters are all that is told of a manifest. */
  lemma TellsSame(v: Version, m: Manifest, p: Pages, m': Manifest, p': Pages, facts: Facts)
    requires Tells(v, m, p, facts) && m' == m.(torn := m'.torn)
    requires p'.es == p.es && p'.orders == p.orders && p'.chain == p.chain
    ensures Tells(v, m', p', facts)
  {
    hide LastSet, Installs, AllKnown, VersionKnown, EditCoding.EditOk;
  }

  /** A part of an edit says nothing, and is not reported. */
  lemma PartKeepsPages(from: Bytes, file: Bytes, p: Pages)
    requires |p.orders| == |p.es| && EndsQuietly(from) && ReadsAs(from, p) && PartOf(from, file)
    ensures ReadsAs(file, p)
  {
    hide EndsQuietly, ReadsQuietly, Appended, EditRecords;
    var data: Bytes, j :| 0 <= j < |Appended(from, data)| && file == from + Appended(from, data)[..j];
    PartReadsQuietly(from, data, j, EditRecords(p.es, p.orders));
  }

  lemma EndKeepsPages(db: Db, p: Pages, s: Step, db': Db, p': Pages, facts: Facts)
    requires DbInv(db) && EngineNext(db, s, db') && EndsEdit(s) && Inv(db'.st)
    requires PagesOk(db, p, facts) && PagesNext(db, p, DbStep.Engine(s), db', p', facts)
    ensures PagesOk(db', p', facts)
  {
    hide DbInv, Inv, Next, Tells, ReadsAs, EndsQuietly, Carries, Applied, EditOfStep, ValidFile, InLevel, AllOrdered;
    assert Inv(db.st) && db.edit.Some? && db'.edit.None? && !db'.disk.manifest.torn by { EditIsOpen(db, s, db'); }
    StepApplies(db.st, s, db'.st);
    FilesValid(db'.st);
    var e, order :| && Carries(e, order, EditOfStep(db.st, s), db'.disk.manifest, facts)
                    && p' == Extended(p, p.base, e, order, db'.st.version);
    ExtendKeeps(db.st.version, db.disk.manifest, p, p.base, e, order, EditOfStep(db.st, s), db'.st.version,
                db'.disk.manifest, facts);
  }

  lemma EditIsOpen(db: Db, s: Step, db': Db)
    requires DbInv(db) && EngineNext(db, s, db') && EndsEdit(s)
    ensures Inv(db.st) && Next(db.st, s, db'.st) && db.edit.Some? && db'.edit.None? && !db'.disk.manifest.torn
  {
    hide Inv, MemLogged, ImmLogged, LogsNamed, TablesStored, ManifestOk, EditOk, Next;
  }

  lemma ReopenKeepsPages(db: Db, p: Pages, db': Db, p': Pages, facts: Facts)
    requires DbInv(db) && Recovered(db, db') && DbInv(db') && db.down
    requires PagesOk(db, p, facts) && Reopened(db, p, db', p', facts)
    ensures PagesOk(db', p', facts)
  {
    hide DbInv, Inv, Tells, ReadsAs, EndsQuietly, Carries, Applied, ValidFile, InLevel, AllOrdered, Recovered;
    hide IsSnapshot;
    hide VersionKnown;
    assert Inv(db.st) && Inv(db'.st) && db'.edit.None? && !db'.disk.manifest.torn by { ReopenedUntorn(db, db'); }
    FilesValid(db.st);
    FilesValid(db'.st);
    var v, v', m := db.st.version, db'.st.version, db'.disk.manifest;
    if p' == p && v' == v && m == db.disk.manifest {
    } else if !db.disk.manifest.torn && exists e, order, edit ::
         && Applied(v, edit, v') && Carries(e, order, edit, m, facts) && p' == Extended(p, p.file, e, order, v') {
      var e, order, edit :| && Applied(v, edit, v') && Carries(e, order, edit, m, facts)
                            && p' == Extended(p, p.file, e, order, v');
      ExtendKeeps(v, db.disk.manifest, p, p.file, e, order, edit, v', m, facts);
    } else {
      var s, snapshotOrder, e, order, edit :|
        && IsSnapshot(s, snapshotOrder, v, facts) && Applied(v, edit, v') && Carries(e, order, edit, m, facts)
        && p' == Fresh(s, snapshotOrder, e, order, v, v');
      assert VersionKnown(v, facts) by { FilesKnown(v, db.disk.manifest, p, facts); }
      FreshKeeps(s, snapshotOrder, v, e, order, edit, v', m, facts);
    }
  }

  lemma FilesKnown(v: Version, m: Manifest, p: Pages, facts: Facts)
    requires Tells(v, m, p, facts)
    ensures VersionKnown(v, facts)
  {
  }

  lemma ReopenedUntorn(db: Db, db': Db)
    requires DbInv(db) && DbInv(db') && Recovered(db, db')
    ensures Inv(db.st) && Inv(db'.st) && db'.edit.None? && !db'.disk.manifest.torn
  {
    hide Inv, MemLogged, ImmLogged, LogsNamed, TablesStored, ManifestOk, EditOk, Replayed, Stored;
  }

  lemma QuietKeepsPages(db: Db, p: Pages, step: DbStep, db': Db, p': Pages, facts: Facts)
    requires DbInv(db) && DbNext(db, step, db') && !step.Recover? && !(step.Engine? && EndsEdit(step.step))
    requires PagesOk(db, p, facts) && PagesNext(db, p, step, db', p', facts)
    ensures PagesOk(db', p', facts)
  {
    hide DbInv, EngineNext, Tells, ReadsAs, EndsQuietly, PartOf;
    SameVersion(db, step, db');
    SameLength(db.st.version, db.disk.manifest, p, facts);
    if step.StartEdit? {
      assert !db.disk.manifest.torn by { NoEditUntorn(db, step, db'); }
    } else if step.EditPart? {
      PartKeepsPages(p.base, p'.file, p);
    } else if step.AbortRecovery? && PartOf(p.file, p'.file) && !db.disk.manifest.torn && !(p' == p && !step.tear) {
      PartKeepsPages(p.file, p'.file, p);
    }
    SameReads(p, p');
    TellsSame(db.st.version, db.disk.manifest, p, db'.disk.manifest, p', facts);
  }

  lemma SameReads(p: Pages, p': Pages)
    ensures |p.orders| == |p.es| && p'.es == p.es && p'.orders == p.orders ==>
              forall b :: ReadsAs(b, p') <==> ReadsAs(b, p)
  {
  }

  lemma NoEditUntorn(db: Db, step: DbStep, db': Db)
    requires DbInv(db) && DbNext(db, step, db') && step.StartEdit?
    ensures !db.disk.manifest.torn
  {
    hide Inv, MemLogged, ImmLogged, LogsNamed, TablesStored, ManifestOk, EditOk;
  }

  /** Every step keeps the manifest telling the version and the counters. */
  lemma StepKeepsPages(db: Db, p: Pages, step: DbStep, db': Db, p': Pages, facts: Facts)
    requires DbInv(db) && DbNext(db, step, db') && PagesOk(db, p, facts) && PagesNext(db, p, step, db', p', facts)
    ensures PagesOk(db', p', facts)
  {
    hide DbInv, EngineNext, Recovered, PagesOk, Reopened, Inv;
    DbStepKeepsInv(db, step, db');
    assert Inv(db'.st) by { InvOf(db'); }
    if step.Recover? {
      ReopenKeepsPages(db, p, db', p', facts);
    } else if step.Engine? && EndsEdit(step.step) {
      EndKeepsPages(db, p, step.step, db', p', facts);
    } else {
      QuietKeepsPages(db, p, step, db', p', facts);
    }
  }

  lemma InvOf(db: Db)
    requires DbInv(db)
    ensures Inv(db.st)
  {
    hide Inv, MemLogged, ImmLogged, LogsNamed, TablesStored, ManifestOk, EditOk;
  }

  // ---------- runs ----------

  /** The edit of a new database. */
  function FirstEdit(facts: Facts): Fields {
    EditCoding.EditFields(Some(facts.comparator), Some(1), None, Some(2), Some(0), [], {}, [])
  }

  function FirstPages(facts: Facts): Pages {
    Pages(LogBytes([EditBytes(FirstEdit(facts), [])]), [], [FirstEdit(facts)], [[]], [NO_FILES, NO_FILES])
  }

  lemma FirstPagesOk(facts: Facts)
    requires |facts.comparator| < TWO32
    ensures PagesOk(FRESH_DB, FirstPages(facts), facts)
  {
    hide EndsQuietly, ReadsQuietly, EditCoding.EncodeFields, LogBytes;
    var e, p := FirstEdit(facts), FirstPages(facts);
    FirstFits(facts);
    assert EditsOf(p.es, facts.reading)[0] == VersionEdit({}, []);
    EmptyVersionOk();
    NothingApplied(NO_FILES);
    forall l: nat, f ensures !InLevel(NO_FILES, l, f) {
      if l < NUM_LEVELS { EmptyLevel(l); }
    }
    assert p.es == [] + [e];
    LastIs([], e, LOG_NUMBER);
    LastIs([], e, Manifests.NEXT_FILE);
    LastIs([], e, LAST_SEQUENCE);
    WrittenEndsQuietly([EditBytes(e, [])]);
    assert EditRecords(p.es, p.orders) == [EditBytes(e, [])];
  }

  lemma FirstFits(facts: Facts)
    requires |facts.comparator| < TWO32
    ensures EditCoding.EditOk(FirstEdit(facts), []) && EditOf(FirstEdit(facts), facts.reading) == VersionEdit({}, [])
  {
  }

  /** In every state of every run, with crashes in the middle of an edit and recoveries that crash, the bytes of the
      manifest open to the version and the counters of that state. */
  lemma {:induction false} ManifestReadsBack(run: seq<Db>, steps: seq<DbStep>, pages: seq<Pages>, facts: Facts, i: nat)
    requires IsDbRun(run, steps) && |pages| == |run| && i < |run| && |facts.comparator| < TWO32
    requires pages[0] == FirstPages(facts)
    requires forall k :: 0 <= k < |steps| ==> PagesNext(run[k], pages[k], steps[k], run[k + 1], pages[k + 1], facts)
    ensures PagesOk(run[i], pages[i], facts)
  {
    hide DbInv, DbNext, PagesNext, PagesOk, FirstPages;
    if i == 0 {
      FirstPagesOk(facts);
    } else {
      ManifestReadsBack(run, steps, pages, facts, i - 1);
      DbRunsKeepInv(run, steps, i - 1);
      StepKeepsPages(run[i - 1], pages[i - 1], steps[i - 1], run[i], pages[i], facts);
    }
  }

  /** Opening from these bytes. */
  method OpenPages(file: Bytes, facts: Facts, ghost db: Db, ghost p: Pages) returns (r: Option<Opened>)
    requires PagesOk(db, p, facts) && file == p.file
    ensures r.Some? && r.value.version == db.st.version && r.value.logNumber == db.disk.manifest.logNumber
    ensures r.value.nextFile == db.disk.manifest.nextFile && r.value.lastSequence == db.disk.manifest.lastSequence
  {
    hide LastSet, Installs, AllRecords, EditCoding.EditOk, EditCoding.EncodeFields, EditCoding.FieldsOf, EndsQuietly;
    KnownAreOne(p.es, facts);
    assert EditRecords(p.es, p.orders)[..|p.es|] == EditRecords(p.es, p.orders) && p.es[..|p.es|] == p.es;
    r := RecoverManifest(file, facts.comparator, facts.reading, p.es, p.orders, p.chain, |p.es|);
  }
}
