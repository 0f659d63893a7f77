/** The bytes of the log files of a running database: what is read back from them in every state of every run.

    `Durability` speaks of a log as the list of its records, and of whether it ends inside a fragment.  Here every log
    has its bytes, a record reaches them piece by piece, and the two are shown to say the same. */
module LogFiles {
  import opened InternalKeys
  import opened LogAppending
  import opened Files
  import opened InputSelection
  import opened Edits
  import opened Installing
  import opened Flushing
  import opened Engine
  import opened Durability
  import opened Recovery

  // ---------- the log files of a database ----------

  /** `encode` gives the bytes of a record; nothing is asked of it here. */
  function Encoded(records: seq<Record>, encode: Record -> Bytes): (rs: seq<Bytes>)
    ensures |rs| == |records|
  {
    seq(|records|, i requires 0 <= i < |records| => encode(records[i]))
  }

  /** The bytes of every log, and those the current one had before the record being written. */
  datatype Bytewise = Bytewise(files: map<nat, Bytes>, base: Bytes)

  /** Every file reads back as its records.  The current one is what it was before the present record, and a part of
      that record; a file that is not said to be torn ends at an edge. */
  ghost predicate Faithful(db: Db, b: Bytewise, encode: Record -> Bytes) {
    && b.files.Keys == db.disk.logs.Keys && db.curLog in b.files
    && (forall n :: n in b.files ==> ReadLog(b.files[n]) == Encoded(db.disk.logs[n], encode))
    && (forall n :: n in b.files && n !in db.disk.torn ==> EndsAtEdge(b.files[n]))
    && (db.st.inflight.Some? && !db.logged && !db.down ==>
          EndsAtEdge(b.base) && ReadLog(b.base) == Encoded(db.disk.logs[db.curLog], encode))
  }

  /** What the writer of the log has to append for the group in flight. */
  function GroupBytes(db: Db, encode: Record -> Bytes): Bytes {
    if db.st.inflight.Some? then encode(Record(LastSequence(db.st) + 1, db.st.inflight.value.ops)) else []
  }

  /** What a step does to the files. */
  ghost predicate FilesNext(db: Db, b: Bytewise, step: DbStep, db': Db, b': Bytewise, encode: Record -> Bytes) {
    match step
    case Engine(s) =>
      if s.BeginWrite? then b' == Bytewise(b.files, if db.curLog in b.files then b.files[db.curLog] else [])
      else if s.SwitchMemTable? then b' == Bytewise(b.files[db'.curLog := []], [])
      else b' == b
    case AppendPart(edge) =>
      exists j :: 0 <= j < |Appended(b.base, GroupBytes(db, encode))|
        && b' == Bytewise(b.files[db.curLog := b.base + Appended(b.base, GroupBytes(db, encode))[..j]], b.base)
        && (edge <==> EndsAtEdge(b'.files[db.curLog]))
    case AppendRecord =>
      b' == Bytewise(b.files[db.curLog := b.base + Appended(b.base, GroupBytes(db, encode))], b.base)
    case DeleteObsoleteFiles => b' == Bytewise(map n | n in b.files && n in db'.disk.logs :: b.files[n], b.base)
    case AbortRecovery(_, log, _) => b' == if log.Some? then Bytewise(b.files[log.value := []], b.base) else b
    case Recover => b' == if db'.curLog in b.files then b else Bytewise(b.files[db'.curLog := []], [])
    case _ => b' == b
  }

  lemma EncodedMore(records: seq<Record>, r: Record, encode: Record -> Bytes)
    ensures Encoded(records + [r], encode) == Encoded(records, encode) + [encode(r)]
    ensures Encoded([], encode) == []
  {
  }

  lemma EngineKeepsFaithful(db: Db, b: Bytewise, s: Step, db': Db, b': Bytewise, encode: Record -> Bytes)
    requires DbInv(db) && !db.down && EngineNext(db, s, db') && Faithful(db, b, encode)
    requires FilesNext(db, b, DbStep.Engine(s), db', b', encode)
    ensures Faithful(db', b', encode)
  {
    hide Inv, ImmLogged, LogsNamed, TablesStored, ManifestOk, EditOk, MemLogged, Span, Written, Contents, ReadLog;
    hide EndsAtEdge, Appended, Encoded, Next, Replayed, Stored, LiveTable;
    EmptyFile();
    EncodedMore([], Record(0, []), encode);
    InFlightAfter(db.st, s, db'.st);
    InFlightLog(db);
  }

  lemma InFlightLog(db: Db)
    requires DbInv(db)
    ensures db.logged ==> db.st.inflight.Some?
    ensures db.curLog in db.disk.torn ==> db.st.inflight.Some? && !db.logged
  {
    hide Inv, ImmLogged, LogsNamed, TablesStored, ManifestOk, EditOk, Span, Written, Contents;
  }

  lemma WriteKeepsFaithful(db: Db, b: Bytewise, step: DbStep, db': Db, b': Bytewise, encode: Record -> Bytes)
    requires DbNext(db, step, db') && Faithful(db, b, encode) && FilesNext(db, b, step, db', b', encode)
    requires step.AppendPart? || step.AppendRecord?
    ensures Faithful(db', b', encode)
  {
    hide Inv, ImmLogged, LogsNamed, TablesStored, ManifestOk, EditOk, MemLogged, Span, Written, Contents, ReadLog;
    hide EndsAtEdge;
    hide Appended, Encoded, Next, Replayed, Stored, LiveTable, GroupBytes;
    var data := GroupBytes(db, encode);
    if step.AppendPart? {
      var j :| 0 <= j < |Appended(b.base, data)|
        && b' == Bytewise(b.files[db.curLog := b.base + Appended(b.base, data)[..j]], b.base)
        && (step.edge <==> EndsAtEdge(b'.files[db.curLog]));
      PartReads(b.base, data, j);
    } else {
      AppendReads(b.base, data);
      var record := Record(LastSequence(db.st) + 1, db.st.inflight.value.ops);
      assert data == encode(record) by { GroupIs(db, encode); }
      EncodedMore(db.disk.logs[db.curLog], record, encode);
    }
  }

  lemma GroupIs(db: Db, encode: Record -> Bytes)
    ensures db.st.inflight.Some? ==>
              GroupBytes(db, encode) == encode(Record(LastSequence(db.st) + 1, db.st.inflight.value.ops))
  {
  }

  lemma AbortKeepsFaithful(db: Db, b: Bytewise, step: DbStep, db': Db, b': Bytewise, encode: Record -> Bytes)
    requires DbNext(db, step, db') && Faithful(db, b, encode) && FilesNext(db, b, step, db', b', encode)
    requires step.AbortRecovery?
    ensures Faithful(db', b', encode)
  {
    hide ReadLog, EndsAtEdge, Appended, Encoded, EngineNext, Recovered, MarkUsed;
    EmptyFile();
    EncodedMore([], Record(0, []), encode);
  }

  lemma RecoverKeepsFaithful(db: Db, b: Bytewise, db': Db, b': Bytewise, encode: Record -> Bytes)
    requires Recovered(db, db') && Faithful(db, b, encode) && FilesNext(db, b, DbStep.Recover, db', b', encode)
    ensures Faithful(db', b', encode)
  {
    hide ReadLog, EndsAtEdge, Appended, Encoded, Recovered;
    RecoverParts(db, db');
    EmptyFile();
    EncodedMore([], Record(0, []), encode);
  }

  /** What recovery does to the logs. */
  lemma RecoverParts(db: Db, db': Db)
    requires Recovered(db, db')
    ensures db'.st.inflight.None? && !db'.logged && db'.curLog !in db'.disk.torn
    ensures if db'.curLog in db.disk.logs then db'.disk.logs == db.disk.logs && db'.disk.torn == db.disk.torn
            else db'.disk.logs == db.disk.logs[db'.curLog := []] && db'.disk.torn == db.disk.torn - {db'.curLog}
  {
    hide MemLogged, LogsNamed, ManifestOk, Replayed, Stored, DurableOps;
  }

  lemma QuietKeepsFaithful(db: Db, b: Bytewise, step: DbStep, db': Db, b': Bytewise, encode: Record -> Bytes)
    requires DbInv(db) && DbNext(db, step, db') && Faithful(db, b, encode) && FilesNext(db, b, step, db', b', encode)
    requires || step.WriteTable? || step.DeleteObsoleteFiles? || step.Pin? || step.Unpin? || step.Crash?
             || step.StartEdit? || step.EditPart?
    ensures Faithful(db', b', encode)
  {
    hide Inv, ImmLogged, LogsNamed, TablesStored, ManifestOk, EditOk, MemLogged, Span, Written, Contents, ReadLog;
    hide EndsAtEdge, Appended, Encoded, Next, Replayed, Stored, LiveTable;
    CurrentKept(db);
    if step.WriteTable? {
      InFlightAfter(db.st, NewFileNumber, db'.st);
    }
  }

  /** Every step keeps the files faithful. */
  lemma StepKeepsFaithful(db: Db, b: Bytewise, step: DbStep, db': Db, b': Bytewise, encode: Record -> Bytes)
    requires DbInv(db) && DbNext(db, step, db') && Faithful(db, b, encode) && FilesNext(db, b, step, db', b', encode)
    ensures Faithful(db', b', encode)
  {
    hide DbInv, EngineNext, Recovered, Faithful, FilesNext;
    match step
    case Engine(s) => EngineKeepsFaithful(db, b, s, db', b', encode);
    case AppendPart(_) => WriteKeepsFaithful(db, b, step, db', b', encode);
    case AppendRecord => WriteKeepsFaithful(db, b, step, db', b', encode);
    case AbortRecovery(_, _, _) => AbortKeepsFaithful(db, b, step, db', b', encode);
    case Recover => RecoverKeepsFaithful(db, b, db', b', encode);
    case _ => QuietKeepsFaithful(db, b, step, db', b', encode);
  }

  lemma InFlightAfter(st: State, step: Step, st': State)
    requires Next(st, step, st')
    ensures step.BeginWrite? ==> st.inflight.None?
    ensures !step.BeginWrite? && !step.InsertOne? ==> st'.inflight == if step.Publish? then None else st.inflight
  {
    hide OutputsOk, OutputsClear, Replaced, NoResurrection, Ready, Applied, Added, PlacedClear, ValidFile;
  }

  lemma CurrentKept(db: Db)
    requires DbInv(db)
    ensures db.curLog in db.disk.logs && db.disk.manifest.logNumber <= db.curLog
  {
    hide Inv, TablesStored, ManifestOk, EditOk, Span, Written, Contents;
  }

  /** In every state of every run, with crashes in the middle of a write and recoveries that crash, what is read from
      the bytes of each log is its records, whatever the bytes of a record are. */
  lemma {:induction false} FilesReadBack(run: seq<Db>, steps: seq<DbStep>, bytes: seq<Bytewise>,
                                         encode: Record -> Bytes, i: nat)
    requires IsDbRun(run, steps) && |bytes| == |run| && i < |run|
    requires bytes[0] == Bytewise(map[1 := []], [])
    requires forall k :: 0 <= k < |steps| ==> FilesNext(run[k], bytes[k], steps[k], run[k + 1], bytes[k + 1], encode)
    ensures Faithful(run[i], bytes[i], encode)
    ensures forall n :: n in run[i].disk.logs ==>
              n in bytes[i].files && ReadLog(bytes[i].files[n]) == Encoded(run[i].disk.logs[n], encode)
  {
    hide DbInv, DbNext, FilesNext, ReadLog, EndsAtEdge, Encoded;
    if i == 0 {
      EmptyFile();
      EncodedMore([], Record(0, []), encode);
    } else {
      FilesReadBack(run, steps, bytes, encode, i - 1);
      DbRunsKeepInv(run, steps, i - 1);
      StepKeepsFaithful(run[i - 1], bytes[i - 1], steps[i - 1], run[i], bytes[i], encode);
    }
  }
}
