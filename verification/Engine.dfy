/** The storage engine as a state machine: writes, memtable switch, flush, compaction, snapshots (db/db_impl.cc).

    Steps are the sections of code that run under the mutex; a compaction is two steps with any number of
    other steps in between, and a write group enters the memtable entry by entry before it is published. */
module Engine {
  import opened InternalKeys
  import opened Meaning
  import opened Files
  import opened Versions
  import opened InputSelection
  import opened Edits
  import opened Installing
  import opened CompactionMeaning
  import opened Flushing

  /** A group of operations on its way into the memtable. */
  datatype Group = Group(ops: seq<Op>, inserted: nat)

  /** `history` and `floor` only serve the specification: all published operations in order, and the
      oldest snapshot whose reads are still answered. */
  datatype State = State(
    history: seq<Op>,
    floor: nat,
    mem: seq<Entry>,
    imm: Option<seq<Entry>>,
    version: Version,
    nextFile: nat,
    snapshots: seq<nat>,
    inflight: Option<Group>,
    job: Option<Job>)

  function LastSequence(st: State): nat {
    |st.history|
  }

  /** Published operations and those of the group being inserted. */
  ghost function Ops(st: State): seq<Op> {
    if st.inflight.Some? then st.history + st.inflight.value.ops else st.history
  }

  ghost function Inserted(st: State): nat {
    if st.inflight.Some? then st.inflight.value.inserted else 0
  }

  ghost function ImmEntries(st: State): set<Entry> {
    if st.imm.Some? then Contents(st.imm.value) else {}
  }

  ghost function Entries(st: State): set<Entry> {
    VersionEntries(st.version) + ImmEntries(st) + Contents(st.mem)
  }

  /** Each entry is the operation its sequence number says it is. */
  ghost predicate Authentic(es: set<Entry>, ops: seq<Op>) {
    forall e :: e in es ==> 1 <= e.key.sequence <= |ops| && e == EntryOf(ops[e.key.sequence - 1], e.key.sequence)
  }

  ghost predicate UpTo(es: set<Entry>, last: nat) {
    forall e :: e in es ==> e.key.sequence <= last
  }

  /** Memtable, immutable memtable and version hold ever older entries, all of them genuine. */
  ghost predicate Layered(st: State) {
    && VersionOk(st.version) && AllOrdered(st.version)
    && (forall l, f :: InLevel(st.version, l, f) ==> f.number < st.nextFile)
    && Sorted(st.mem) && (st.imm.Some? ==> Sorted(st.imm.value))
    && AllNewer(Contents(st.mem), ImmEntries(st) + VersionEntries(st.version))
    && AllNewer(ImmEntries(st), VersionEntries(st.version))
    && Authentic(Entries(st), Ops(st))
    && UpTo(ImmEntries(st) + VersionEntries(st.version), LastSequence(st))
    && UpTo(Contents(st.mem), LastSequence(st) + Inserted(st))
    && |Ops(st)| < MAX_SEQUENCE
  }

  ghost predicate GroupOk(st: State) {
    st.inflight.Some? ==>
      var g := st.inflight.value;
      && g.inserted <= |g.ops|
      && forall k :: 0 <= k < g.inserted ==> EntryOf(g.ops[k], |st.history| + 1 + k) in st.mem
  }

  /** Every read from the floor up answers with the last operation on the key. */
  ghost predicate ReadsRight(st: State) {
    forall u: UserKey, s: nat :: st.floor <= s <= LastSequence(st) ==>
      Read(Entries(st), u, s) == SpecRead(st.history, u, s)
  }

  /** Snapshots in the order taken, none older than `least`. */
  ghost predicate SnapshotsOk(st: State, least: nat) {
    && (forall i :: 0 <= i < |st.snapshots| ==> least <= st.snapshots[i] <= LastSequence(st))
    && (forall i, j :: 0 <= i < j < |st.snapshots| ==> st.snapshots[i] <= st.snapshots[j])
  }

  ghost predicate JobFits(st: State) {
    st.job.Some? ==>
      && JobOk(st.version, st.job.value)
      && st.job.value.smallest <= LastSequence(st)
      && SnapshotsOk(st, st.job.value.smallest)
  }

  ghost predicate Inv(st: State) {
    && Layered(st)
    && GroupOk(st)
    && ReadsRight(st)
    && st.floor <= LastSequence(st) && SnapshotsOk(st, st.floor)
    && JobFits(st)
  }

  const EMPTY: State := State([], 0, [], None, NO_FILES, 1, [], None, None)

  // ---------- steps ----------

  datatype Step =
    | NewFileNumber
    | BeginWrite(ops: seq<Op>)
    | InsertOne
    | Publish
    | SwitchMemTable
    | Flush(level: nat, file: FileMeta)
    | FlushNothing
    | StartCompaction(level: nat, in0: seq<FileMeta>, in1: seq<FileMeta>, hull: Range)
    | FinishCompaction(outputs: seq<FileMeta>)
    | TrivialMove(from: nat, moved: FileMeta, range: Range)
    | TakeSnapshot
    | ReleaseSnapshot(index: nat)

  /** The smallest snapshot a compaction must respect: the oldest live one, else the last sequence. */
  function SmallestSnapshot(st: State): nat {
    if st.snapshots == [] then LastSequence(st) else st.snapshots[0]
  }

  /** That is a sequence number some reader may still ask for, and no reader asks for an earlier one. */
  lemma SmallestIsOldest(st: State)
    requires SnapshotsOk(st, st.floor)
    ensures SmallestSnapshot(st) in st.snapshots + [LastSequence(st)]
    ensures forall s :: s in st.snapshots + [LastSequence(st)] ==> SmallestSnapshot(st) <= s
  {
    if st.snapshots != [] {
      assert st.snapshots[0] in st.snapshots;
    }
  }

  function MemInsert(mem: seq<Entry>, e: Entry): seq<Entry> {
    var i := Seek(mem, e.key);
    mem[..i] + [e] + mem[i..]
  }

  ghost predicate Next(st: State, step: Step, st': State) {
    match step
    case NewFileNumber =>
      st' == st.(nextFile := st.nextFile + 1)
    case BeginWrite(ops) =>
      && st.inflight.None? && |st.history| + |ops| < MAX_SEQUENCE
      && st' == st.(inflight := Some(Group(ops, 0)))
    case InsertOne =>
      && st.inflight.Some? && st.inflight.value.inserted < |st.inflight.value.ops|
      && var g := st.inflight.value;
         st' == st.(mem := MemInsert(st.mem, EntryOf(g.ops[g.inserted], |st.history| + 1 + g.inserted)),
                    inflight := Some(Group(g.ops, g.inserted + 1)))
    case Publish =>
      && st.inflight.Some? && st.inflight.value.inserted == |st.inflight.value.ops|
      && st' == st.(history := st.history + st.inflight.value.ops, inflight := None)
    case SwitchMemTable =>
      && st.inflight.None? && st.imm.None?
      && st' == st.(imm := Some(st.mem), mem := [], nextFile := st.nextFile + 1)
    case Flush(level, f) =>
      && st.imm.Some? && st.imm.value != []
      && f.number == st.nextFile && f.entries == st.imm.value && ValidFile(f)
      && level <= MAX_MEM_COMPACT_LEVEL && PlacedClear(st.version, level, f)
      && Added(st.version, level, f, st'.version)
      && st' == st.(imm := None, version := st'.version, nextFile := st.nextFile + 1)
    case FlushNothing =>
      && st.imm == Some([])
      && st' == st.(imm := None)
    case StartCompaction(level, in0, in1, hull) =>
      && st.job.None? && Ready(st.version, level, in0, in1, hull)
      && st' == st.(job := Some(Job(level, in0, in1, st.version, SmallestSnapshot(st))))
    case FinishCompaction(outputs) =>
      && st.job.Some?
      && OutputsOk(st.version, st.job.value, outputs)
      && (forall o :: o in outputs ==> o.number < st'.nextFile)
      && Replaced(st.version, st.job.value, outputs, st'.version)
      && NoResurrection(st) && OutputsClear(st.version, st.job.value, outputs)
      && st.nextFile <= st'.nextFile
      && st' == st.(version := st'.version, nextFile := st'.nextFile, job := None,
                    floor := if st.floor < st.job.value.smallest then st.job.value.smallest else st.floor)
    case TrivialMove(level, f, hull) =>
      && st.job.None? && Ready(st.version, level, [f], [], hull)
      && Applied(st.version, CompactionEdit(Job(level, [f], [], st.version, 0), [f]), st'.version)
      && st' == st.(version := st'.version)
    case TakeSnapshot =>
      st' == st.(snapshots := st.snapshots + [LastSequence(st)])
    case ReleaseSnapshot(i) =>
      && i < |st.snapshots|
      && st' == st.(snapshots := st.snapshots[..i] + st.snapshots[i + 1..])
  }

  /** Hypothesis on a compaction: no dropped deletion brings back a value from a split user key. */
  ghost predicate NoResurrection(st: State) {
    st.job.Some? ==>
      !exists d, g :: Resurrects(st.version, ImmEntries(st) + Contents(st.mem), st.job.value, d, g)
  }
}
