/** Logs, manifest and files: what survives a crash, and recovery (db/db_impl.cc, db/version_set.cc).

    A write group is appended to the current log as one record before it enters the memtable.  An edit reaches the
    manifest in parts, while writers go on; the version it leads to is durable from the moment all of it is there, and
    that moment is the step. */
module Durability {
  import opened InternalKeys
  import opened Meaning
  import opened Files
  import opened Versions
  import opened Edits
  import opened CompactionMeaning
  import opened Engine

  /** A log record: a write batch with the sequence number of its first operation. */
  datatype Record = Record(first: nat, ops: seq<Op>)

  /** The records hold exactly the operations after number `from` up to number `to`, in order. */
  ghost predicate Span(records: seq<Record>, ops: seq<Op>, from: nat, to: nat) {
    if records == [] then from == to <= |ops|
    else
      var next := from + |records[0].ops|;
      next <= |ops| && records[0] == Record(from + 1, ops[from..next]) && Span(records[1..], ops, next, to)
  }

  lemma {:induction false} SpanBounds(records: seq<Record>, ops: seq<Op>, from: nat, to: nat)
    requires Span(records, ops, from, to)
    ensures from <= to <= |ops|
  {
    if records != [] {
      SpanBounds(records[1..], ops, from + |records[0].ops|, to);
    }
  }

  lemma {:induction false} SpanAppend(records: seq<Record>, ops: seq<Op>, from: nat, to: nat, end: nat)
    requires Span(records, ops, from, to) && to <= end <= |ops|
    ensures Span(records + [Record(to + 1, ops[to..end])], ops, from, end)
  {
    var last := Record(to + 1, ops[to..end]);
    if records == [] {
      assert ([] + [last])[1..] == [];
    } else {
      SpanAppend(records[1..], ops, from + |records[0].ops|, to, end);
      assert (records + [last])[1..] == records[1..] + [last];
    }
  }

  lemma {:induction false} SpanExtend(records: seq<Record>, ops: seq<Op>, more: seq<Op>, from: nat, to: nat)
    requires Span(records, ops, from, to) && ops <= more
    ensures Span(records, more, from, to)
  {
    if records != [] {
      var next := from + |records[0].ops|;
      assert more[from..next] == ops[from..next];
      SpanExtend(records[1..], ops, more, next, to);
    }
  }

  lemma {:induction false} SpanRestrict(records: seq<Record>, ops: seq<Op>, less: seq<Op>, from: nat, to: nat)
    requires Span(records, ops, from, to) && less <= ops && to <= |less|
    ensures Span(records, less, from, to)
  {
    if records != [] {
      var next := from + |records[0].ops|;
      SpanBounds(records[1..], ops, next, to);
      assert less[from..next] == ops[from..next];
      SpanRestrict(records[1..], ops, less, next, to);
    }
  }

  /** The entry of operation number `n`. */
  ghost function OpEntry(ops: seq<Op>, n: nat): Entry
    requires 1 <= n <= |ops|
  {
    EntryOf(ops[n - 1], n)
  }

  /** The entries of operations number `from + 1` to `to`. */
  ghost function Written(ops: seq<Op>, from: nat, to: nat): set<Entry>
    requires to <= |ops|
  {
    set n: nat | from < n <= to :: OpEntry(ops, n)
  }

  lemma WrittenAre(ops: seq<Op>, from: nat, to: nat, e: Entry)
    requires to <= |ops|
    ensures e in Written(ops, from, to)
       <==> from < e.key.sequence <= to && e == EntryOf(ops[e.key.sequence - 1], e.key.sequence)
  {
    if from < e.key.sequence <= to && e == EntryOf(ops[e.key.sequence - 1], e.key.sequence) {
      assert e == OpEntry(ops, e.key.sequence);
    }
  }

  lemma WrittenPrefix(ops: seq<Op>, more: seq<Op>, from: nat, to: nat)
    requires ops <= more && to <= |ops|
    ensures Written(more, from, to) == Written(ops, from, to)
  {
    forall e ensures e in Written(more, from, to) <==> e in Written(ops, from, to) {
      WrittenAre(ops, from, to, e);
      WrittenAre(more, from, to, e);
    }
  }

  lemma WrittenSplit(ops: seq<Op>, from: nat, mid: nat, to: nat)
    requires from <= mid <= to <= |ops|
    ensures Written(ops, from, to) == Written(ops, from, mid) + Written(ops, mid, to)
  {
    forall e ensures e in Written(ops, from, to) <==> e in Written(ops, from, mid) + Written(ops, mid, to) {
      WrittenAre(ops, from, to, e);
      WrittenAre(ops, from, mid, e);
      WrittenAre(ops, mid, to, e);
    }
  }

  lemma WrittenOne(ops: seq<Op>, from: nat, to: nat)
    requires from <= to < |ops|
    ensures Written(ops, from, to + 1) == Written(ops, from, to) + {EntryOf(ops[to], to + 1)}
  {
    var more, last := Written(ops, from, to + 1), EntryOf(ops[to], to + 1);
    forall e ensures e in more <==> e in Written(ops, from, to) + {last} {
      WrittenAre(ops, from, to + 1, e);
      WrittenAre(ops, from, to, e);
    }
  }

  // ---------- state ----------

  /** What the manifest says beside the files of the version: the first log to replay, the file number counter and
      the last sequence number, each as of the last edit; and whether its file ends inside the record of a later one. */
  datatype Manifest = Manifest(logNumber: nat, nextFile: nat, lastSequence: nat, torn: bool)

  /** An edit that `LogAndApply` is writing, with the mutex released: whether it is that of a flush, and the counters as
      they were when it began. */
  datatype OpenEdit = OpenEdit(flush: bool, nextFile: nat, lastSequence: nat)

  /** Files on disk: logs by number, the numbers of logs that end inside a fragment, the manifest, and tables by
      number. */
  datatype Disk = Disk(logs: map<nat, seq<Record>>, torn: set<nat>, manifest: Manifest, tables: set<nat>)

  /** `memStart` and `immStart` tell after which operation the memtables start; `logged` whether the group
      in flight has its record; `pending` numbers tables being written; `pinned` are versions held by readers; `edit` is
      on its way to the manifest.  While the process is `down`, everything but the disk is what it was before the
      crash. */
  datatype Db = Db(st: State, disk: Disk, curLog: nat, immLog: nat, logged: bool, memStart: nat, immStart: nat,
                   pending: set<nat>, pinned: seq<Version>, edit: Option<OpenEdit>, down: bool)

  /** How many operations have a log record. */
  ghost function Logged(db: Db): nat {
    if db.logged then |Ops(db.st)| else LastSequence(db.st)
  }

  /** Operations up to this one live in tables. */
  ghost function Flushed(db: Db): nat {
    if db.st.imm.Some? then db.immStart else db.memStart
  }

  ghost predicate MemLogged(db: Db) {
    && db.memStart <= LastSequence(db.st)
    && (db.logged ==> db.st.inflight.Some?)
    && (Inserted(db.st) > 0 ==> db.logged)
    && LastSequence(db.st) + Inserted(db.st) <= |Ops(db.st)|
    && Contents(db.st.mem) == Written(Ops(db.st), db.memStart, LastSequence(db.st) + Inserted(db.st))
    && db.curLog in db.disk.logs
    && Span(db.disk.logs[db.curLog], Ops(db.st), db.memStart, Logged(db))
  }

  ghost predicate ImmLogged(db: Db) {
    db.st.imm.Some? ==>
      && db.immStart <= db.memStart <= LastSequence(db.st)
      && ImmEntries(db.st) == Written(db.st.history, db.immStart, db.memStart)
      && db.immLog in db.disk.logs && db.immLog < db.curLog
      && Span(db.disk.logs[db.immLog], db.st.history, db.immStart, db.memStart)
  }

  /** No log that recovery would read is missing, and no other has records. */
  ghost predicate LogsNamed(db: Db) {
    && db.disk.manifest.logNumber <= (if db.st.imm.Some? then db.immLog else db.curLog)
    && (forall n :: n in db.disk.logs && db.disk.manifest.logNumber <= n && n != db.curLog ==>
                      db.disk.logs[n] == [] || (db.st.imm.Some? && n == db.immLog))
    && (forall n :: n in db.disk.logs ==> n < db.st.nextFile) && db.curLog < db.st.nextFile
    && UpTo(VersionEntries(db.st.version), Flushed(db))
  }

  /** The counters in the manifest cover the files of the version and what lives in tables. */
  ghost predicate ManifestOk(db: Db) {
    && (forall l, f :: InLevel(db.st.version, l, f) ==> f.number < db.disk.manifest.nextFile)
    && db.disk.manifest.logNumber < db.disk.manifest.nextFile <= db.st.nextFile
    && Flushed(db) <= db.disk.manifest.lastSequence <= LastSequence(db.st)
  }

  /** The current log ends inside a fragment, and the manifest inside a record, only while they are being written. */
  ghost predicate TornOk(db: Db) {
    && (db.curLog in db.disk.torn ==> db.st.inflight.Some? && !db.logged)
    && (db.disk.manifest.torn ==> db.edit.Some? || db.down)
    && (db.down ==> db.edit.None?)
  }

  /** The counters of the edit being written cover what it will name, however old they have become. */
  ghost predicate EditOk(db: Db) {
    && (forall n :: n in db.pending ==> n < db.st.nextFile)
    && (db.edit.Some? ==>
          var e := db.edit.value;
          && db.disk.manifest.nextFile <= e.nextFile <= db.st.nextFile
          && db.disk.manifest.lastSequence <= e.lastSequence <= LastSequence(db.st)
          && (e.flush ==> db.st.imm.Some? && db.memStart <= e.lastSequence && db.curLog < e.nextFile)
          && (!e.flush ==> forall n :: n in db.pending ==> n < e.nextFile))
  }

  ghost predicate Stored(v: Version, tables: set<nat>) {
    forall l, f :: InLevel(v, l, f) ==> f.number in tables
  }

  /** Every file of a version in use, and every table being written, is on disk. */
  ghost predicate TablesStored(db: Db) {
    && Stored(db.st.version, db.disk.tables)
    && (forall i :: 0 <= i < |db.pinned| ==> Stored(db.pinned[i], db.disk.tables))
    && (db.st.job.Some? ==> Stored(db.st.job.value.inputVersion, db.disk.tables))
    && db.pending <= db.disk.tables
  }

  ghost predicate DbInv(db: Db) {
    && Inv(db.st) && MemLogged(db) && ImmLogged(db) && LogsNamed(db) && TablesStored(db)
    && ManifestOk(db) && TornOk(db) && EditOk(db)
  }

  // ---------- steps ----------

  datatype DbStep =
    | Engine(step: Step)
    | AppendPart(edge: bool)
    | AppendRecord
    | StartEdit(flush: bool)
    | EditPart(quiet: bool)
    | WriteTable
    | DeleteObsoleteFiles
    | Pin
    | Unpin(index: nat)
    | Crash
    | AbortRecovery(tables: set<nat>, log: Option<nat>, tear: bool)
    | Recover

  ghost predicate InVersionNumber(v: Version, n: nat) {
    exists l, f :: InLevel(v, l, f) && f.number == n
  }

  /** The tables a deletion must keep: of the current, the pinned and the input version, and pending ones. */
  ghost predicate LiveTable(db: Db, n: nat) {
    || n in db.pending
    || InVersionNumber(db.st.version, n)
    || (exists i :: 0 <= i < |db.pinned| && InVersionNumber(db.pinned[i], n))
    || (db.st.job.Some? && InVersionNumber(db.st.job.value.inputVersion, n))
  }

  /** The manifest after an edit, which carries the counters. */
  function Noted(logNumber: nat, e: OpenEdit): Manifest {
    Manifest(logNumber, e.nextFile, e.lastSequence, false)
  }

  /** An engine step with what it does to the files. */
  ghost predicate EngineNext(db: Db, step: Step, db': Db) {
    && Next(db.st, step, db'.st)
    && match step
       case BeginWrite(_) => !db.logged && db' == db.(st := db'.st)
       case InsertOne => db.logged && db' == db.(st := db'.st)
       case Publish => db.logged && db' == db.(st := db'.st, logged := false)
       case SwitchMemTable =>
         && db.st.nextFile !in db.disk.logs
         && db' == db.(st := db'.st,
                       disk := db.disk.(logs := db.disk.logs[db.st.nextFile := []],
                                        torn := db.disk.torn - {db.st.nextFile}),
                       curLog := db.st.nextFile, immLog := db.curLog,
                       memStart := LastSequence(db.st), immStart := db.memStart)
       case Flush(_, f) =>
         // The number of the table was taken before the edit began; nothing else takes one until it is done.
         && db.edit.Some? && db.edit.value.flush
         && db' == db.(st := db'.st, edit := None,
                       disk := db.disk.(manifest := Noted(db.curLog, db.edit.value.(nextFile := f.number + 1)),
                                        tables := db.disk.tables + {f.number}))
       case FlushNothing =>
         && db.edit.Some? && db.edit.value.flush
         && db' == db.(st := db'.st, edit := None, disk := db.disk.(manifest := Noted(db.curLog, db.edit.value)))
       case FinishCompaction(outputs) =>
         && (forall o :: o in outputs ==> o.number in db.pending)
         && db.edit.Some? && !db.edit.value.flush
         && db' == db.(st := db'.st, pending := {}, edit := None,
                       disk := db.disk.(manifest := Noted(db.disk.manifest.logNumber, db.edit.value)))
       case TrivialMove(_, _, _) =>
         && db.edit.Some? && !db.edit.value.flush
         && db' == db.(st := db'.st, edit := None,
                       disk := db.disk.(manifest := Noted(db.disk.manifest.logNumber, db.edit.value)))
       case _ => db' == db.(st := db'.st)
  }

  ghost predicate DbNext(db: Db, step: DbStep, db': Db) {
    && (db.down <==> step.AbortRecovery? || step.Recover?)
    && match step
       case Engine(s) => EngineNext(db, s, db')
       case AppendPart(edge) =>
         // A part of the group's record is in the file, up to the edge of a fragment or not.
         && db.st.inflight.Some? && !db.logged
         && db' == db.(disk := db.disk.(torn := if edge then db.disk.torn - {db.curLog}
                                                else db.disk.torn + {db.curLog}))
       case AppendRecord =>
         && db.st.inflight.Some? && !db.logged && db.st.inflight.value.inserted == 0 && db.curLog in db.disk.logs
         && var record := Record(LastSequence(db.st) + 1, db.st.inflight.value.ops);
            db' == db.(logged := true,
                       disk := db.disk.(logs := db.disk.logs[db.curLog := db.disk.logs[db.curLog] + [record]],
                                        torn := db.disk.torn - {db.curLog}))
       case StartEdit(flush) =>
         && db.edit.None? && (flush ==> db.st.imm.Some?)
         && db' == db.(edit := Some(OpenEdit(flush, db.st.nextFile, LastSequence(db.st))))
       case EditPart(quiet) =>
         // A part of the edit's record is in the manifest; it may still end where one can go on, or not.
         && db.edit.Some?
         && db' == db.(disk := db.disk.(manifest := db.disk.manifest.(torn := !quiet)))
       case WriteTable =>
         && db.edit.None? && Next(db.st, NewFileNumber, db'.st)
         && db' == db.(st := db'.st, pending := db.pending + {db.st.nextFile},
                       disk := db.disk.(tables := db.disk.tables + {db.st.nextFile}))
       case DeleteObsoleteFiles =>
         db' == db.(disk := db.disk.(logs := map n | n in db.disk.logs && n >= db.disk.manifest.logNumber
                                               :: db.disk.logs[n],
                                     tables := set n | n in db.disk.tables && LiveTable(db, n)))
       case Pin => db' == db.(pinned := db.pinned + [db.st.version])
       case Unpin(i) => i < |db.pinned| && db' == db.(pinned := db.pinned[..i] + db.pinned[i + 1..])
       case Crash => db' == db.(edit := None, down := true)
       case AbortRecovery(tables, log, tear) =>
         // A recovery that crashes before its edit is in the manifest leaves tables nobody names, perhaps a new log,
         // and perhaps a part of the edit, in the manifest it goes on with.
         && (log.Some? ==> log.value !in db.disk.logs && forall n :: n in db.disk.logs ==> n < log.value)
         && (tear ==> !db.disk.manifest.torn)
         && db' == db.(st := db.st.(nextFile := if log.Some? then MarkUsed(db.st.nextFile, log.value)
                                                else db.st.nextFile),
                       disk := Disk(if log.Some? then db.disk.logs[log.value := []] else db.disk.logs,
                                    if log.Some? then db.disk.torn - {log.value} else db.disk.torn,
                                    db.disk.manifest.(torn := db.disk.manifest.torn || tear),
                                    db.disk.tables + tables))
       case Recover => Recovered(db, db')
  }

  /** `MarkFileNumberUsed`: the counter goes past a number that is in use. */
  function MarkUsed(next: nat, n: nat): nat {
    if next <= n then n + 1 else next
  }

  /** What recovery leaves: the operations with a log record, replayed on top of the durable version, and a log and a
      manifest to go on with that do not end inside a fragment or a record. */
  ghost predicate Recovered(db: Db, db': Db) {
    && LastSequence(db.st) <= Logged(db) <= |Ops(db.st)|
    && var ops := DurableOps(db);
       && db'.st == State(ops, db.st.floor, db'.st.mem, None, db'.st.version, db'.st.nextFile, [], None, None)
       && Flushed(db) <= |ops|
       && Replayed(db.st.version, ops, Flushed(db), db'.st.version, db'.st.mem, db'.st.nextFile, |ops|)
       && !db'.logged && db'.pending == {} && db'.pinned == [] && db'.edit.None? && !db'.down
       && MemLogged(db') && LogsNamed(db') && ManifestOk(db')
       && db'.curLog !in db'.disk.torn && !db'.disk.manifest.torn
       && (if db'.curLog in db.disk.logs then db'.disk.logs == db.disk.logs && db'.disk.torn == db.disk.torn
           else db'.disk.logs == db.disk.logs[db'.curLog := []] && db'.disk.torn == db.disk.torn - {db'.curLog})
       && Stored(db'.st.version, db'.disk.tables)
  }

  /** The operations that survive a crash: those with a log record. */
  ghost function DurableOps(db: Db): seq<Op>
    requires Logged(db) <= |Ops(db.st)|
  {
    Ops(db.st)[..Logged(db)]
  }

  /** Part of a replay: operations `from + 1` to `p` have been added to the durable version `v0`. */
  ghost predicate Replayed(v0: Version, ops: seq<Op>, from: nat, v: Version, mem: seq<Entry>, next: nat, p: nat) {
    && from <= p <= |ops| < MAX_SEQUENCE
    && VersionOk(v) && AllOrdered(v) && (forall l, f :: InLevel(v, l, f) ==> f.number < next)
    && Sorted(mem)
    && AllNewer(Contents(mem), VersionEntries(v))
    && VersionEntries(v) + Contents(mem) == VersionEntries(v0) + Written(ops, from, p)
    && Authentic(VersionEntries(v) + Contents(mem), ops)
    && UpTo(VersionEntries(v) + Contents(mem), p)
  }
}
