/** The writer queue drives the engine: what the queue protocol does to log and memtable is what the write steps
    of the durable database do. */
module QueueRefinement {
  import opened InternalKeys
  import opened Meaning
  import opened Files
  import opened InputSelection
  import opened Edits
  import opened Installing
  import opened Flushing
  import opened Engine
  import opened Durability
  import opened Recovery
  import opened WriterQueue

  /** The database shows the state of the queue: finished groups are its history since it was opened with the
      operations `base`, the leader's group is in flight. */
  ghost predicate Shows(q: Writers, db: Db, base: seq<Op>) {
    && db.st.history == base + Committed(q)
    && db.logged == Leader(q).Inserting?
    && db.st.inflight == (match Leader(q)
                          case Logging(_, ops) => Some(Group(ops, 0))
                          case Inserting(_, ops, k) => Some(Group(ops, k))
                          case _ => None)
  }

  /** What the database does when the queue takes a step. */
  ghost predicate Follows(q: Writers, step: QueueStep, q': Writers, db: Db, db': Db) {
    match step
    case Build(_, _) =>
      if Busy(Leader(q')) then DbNext(db, Engine(BeginWrite(Leader(q').ops)), db') else db' == db
    case AppendToLog(_) => DbNext(db, AppendRecord, db')
    case Insert(_) => DbNext(db, Engine(InsertOne), db')
    case Complete(_) => DbNext(db, Engine(Publish), db')
    case _ => db' == db
  }

  /** The database state after that step. */
  ghost function After(q: Writers, step: QueueStep, q': Writers, db: Db): Db
    requires db.curLog in db.disk.logs
  {
    match step
    case Build(_, _) =>
      if Busy(Leader(q')) then db.(st := db.st.(inflight := Some(Group(Leader(q').ops, 0)))) else db
    case AppendToLog(_) =>
      if db.st.inflight.None? then db
      else
        var record := Record(LastSequence(db.st) + 1, db.st.inflight.value.ops);
        db.(logged := true,
            disk := db.disk.(logs := db.disk.logs[db.curLog := db.disk.logs[db.curLog] + [record]],
                             torn := db.disk.torn - {db.curLog}))
    case Insert(_) =>
      if db.st.inflight.None? || db.st.inflight.value.inserted >= |db.st.inflight.value.ops| then db
      else
        var g := db.st.inflight.value;
        db.(st := db.st.(mem := MemInsert(db.st.mem, EntryOf(g.ops[g.inserted], |db.st.history| + 1 + g.inserted)),
                         inflight := Some(Group(g.ops, g.inserted + 1))))
    case Complete(_) =>
      if db.st.inflight.None? then db
      else db.(st := db.st.(history := db.st.history + db.st.inflight.value.ops, inflight := None), logged := false)
    case _ => db
  }

  /** Who leads, and how, changes only by the leader's own steps. */
  lemma LeaderAfter(q: Writers, step: QueueStep, q': Writers)
    requires QueueInv(q) && QueueNext(q, step, q') && QueueInv(q')
    ensures step.Build? && Busy(Leader(q')) ==> !Busy(Leader(q)) && Leader(q').Logging?
    ensures step.Build? && !Busy(Leader(q')) ==> !Busy(Leader(q))
    ensures step.AppendToLog? ==> Leader(q).Logging? && Leader(q') == Inserting(Leader(q).size, Leader(q).ops, 0)
    ensures step.Insert? ==> Leader(q).Inserting? && Leader(q).inserted < |Leader(q).ops|
                             && Leader(q') == Leader(q).(inserted := Leader(q).inserted + 1)
    ensures step.Complete? ==> Leader(q).Inserting? && Leader(q).inserted == |Leader(q).ops| && !Busy(Leader(q'))
    ensures step.Arrive? || step.SpuriousWakeup? || step.Look? ==>
              (if Busy(Leader(q)) then Leader(q') == Leader(q) else !Busy(Leader(q')))
    ensures step.Fail? ==> !Busy(Leader(q)) && !Busy(Leader(q'))
  {
    hide Recorded, Synced, Fifo, Scheduled, Requests, GroupOps, IsGroup, Retire;
    match step {
      case Arrive(w, r) => ArriveScheduled(q, w, r, q');
      case SpuriousWakeup(_) => WaitingScheduled(q, step, q');
      case Look(_) => WaitingScheduled(q, step, q');
      case Fail(w) => LeaderIs(q, w); RetireScheduled(q, 1, false);
      case Build(w, n) =>
        LeaderIs(q, w);
        RetireScheduled(q, 1, true);
      case AppendToLog(w) => LeaderIs(q, w);
      case Insert(w) => LeaderIs(q, w);
      case Complete(w) =>
        LeaderIs(q, w);
        RetireScheduled(q, Leader(q).size, true);
        ScheduledFrame(Retire(q, Leader(q).size, true), q');
    }
  }

  /** What is committed changes only when a group completes, and then by that group. */
  lemma CommittedAfter(q: Writers, step: QueueStep, q': Writers)
    requires QueueInv(q) && QueueNext(q, step, q')
    ensures Committed(q')
         == if step.Complete? && Leader(q).Inserting? then Committed(q) + Leader(q).ops else Committed(q)
  {
    hide Recorded, Synced, Fifo, Scheduled, Requests, GroupOps, IsGroup, Retire, Done;
    RetiredDone(q);
    match step {
      case Fail(w) => LeaderIs(q, w); RetireDone(q, 1, false);
      case Complete(w) =>
        LeaderIs(q, w);
        var n := Leader(q).size;
        RetireDone(q, n, true);
        DoneSame(Retire(q, n, true), q', q'.retired);
        RetireAt(q, n, true, Retire(q, n, true));
      case Build(w, n) =>
        LeaderIs(q, w);
        if Requests(q, q.queue)[0].batch.None? {
          RetireDone(q, 1, true);
          RequestAt(q, q.queue, 0);
          NoBatch(q);
        } else {
          DoneSame(q, q', q.retired);
        }
      case _ => DoneSame(q, q', q.retired);
    }
  }

  /** Each step of the queue is a write step of the database, or none, and the database keeps showing the queue. */
  lemma QueueDrivesDatabase(q: Writers, step: QueueStep, q': Writers, db: Db, base: seq<Op>)
    requires QueueInv(q) && QueueNext(q, step, q') && Shows(q, db, base) && DbInv(db) && !db.down
    requires Busy(Leader(q')) ==> |db.st.history| + |Leader(q').ops| < MAX_SEQUENCE
    ensures db.curLog in db.disk.logs
    ensures Follows(q, step, q', db, After(q, step, q', db)) && Shows(q', After(q, step, q', db), base)
  {
    hide QueueInv, QueueNext, Inv, MemLogged, ImmLogged, LogsNamed, TablesStored, Leader, Committed, MemInsert;
    QueueStepKeepsInv(q, step, q');
    LeaderAfter(q, step, q');
    CommittedAfter(q, step, q');
    LogThere(db);
  }

  lemma LogThere(db: Db)
    requires DbInv(db)
    ensures db.curLog in db.disk.logs
  {
    hide Inv, ImmLogged, LogsNamed, TablesStored, Span, Written;
  }

  // ---------- the whole system ----------

  /** The threads at the queue, the database, and the operations it was opened with. */
  datatype System = System(q: Writers, db: Db, base: seq<Op>)

  /** A thread's step; a step of the background thread, of the log file, or a crash; a recovery that ends. */
  datatype SystemStep = Thread(queue: QueueStep) | Background(db: DbStep) | Open

  /** Steps that only a writer's thread takes. */
  predicate IsWrite(step: DbStep) {
    || step.AppendRecord?
    || (step.Engine? && (step.step.BeginWrite? || step.step.InsertOne? || step.step.Publish?))
  }

  ghost predicate SystemNext(s: System, step: SystemStep, s': System) {
    match step
    case Thread(qs) =>
      && !s.db.down && s.db.curLog in s.db.disk.logs && QueueNext(s.q, qs, s'.q)
      && (Busy(Leader(s'.q)) ==> |s.db.st.history| + |Leader(s'.q).ops| < MAX_SEQUENCE)
      && s' == System(s'.q, After(s.q, qs, s'.q, s.db), s.base)
    case Background(ds) =>
      !IsWrite(ds) && !ds.Recover? && DbNext(s.db, ds, s'.db) && s' == s.(db := s'.db)
    case Open =>
      // The threads of the crashed process are gone.
      DbNext(s.db, DbStep.Recover, s'.db) && s' == System(NOBODY, s'.db, s'.db.st.history)
  }

  ghost predicate SystemInv(s: System) {
    QueueInv(s.q) && DbInv(s.db) && Shows(s.q, s.db, s.base)
  }

  /** Whichever thread takes the next step, the queue, the database and its files stay right, and no operation that was
      published is lost. */
  lemma SystemStepKeepsInv(s: System, step: SystemStep, s': System)
    requires SystemInv(s) && SystemNext(s, step, s')
    ensures SystemInv(s') && s.db.st.history <= s'.db.st.history
  {
    hide QueueInv, DbInv, QueueNext, DbNext, Committed, Leader, After, Follows;
    match step
    case Thread(qs) =>
      QueueStepKeepsInv(s.q, qs, s'.q);
      QueueDrivesDatabase(s.q, qs, s'.q, s.db, s.base);
      FollowsKeeps(s.q, qs, s'.q, s.db, s'.db);
    case Background(ds) =>
      DbStepKeepsInv(s.db, ds, s'.db);
      HistoryGrows(s.db, ds, s'.db);
      BackgroundLeaves(s.db, ds, s'.db);
    case Open =>
      DbStepKeepsInv(s.db, DbStep.Recover, s'.db);
      HistoryGrows(s.db, DbStep.Recover, s'.db);
      NobodyYet();
      NobodyShows(s.db, s'.db);
  }

  lemma FollowsKeeps(q: Writers, step: QueueStep, q': Writers, db: Db, db': Db)
    requires DbInv(db) && Follows(q, step, q', db, db')
    ensures DbInv(db') && db.st.history <= db'.st.history
  {
    hide DbInv, DbNext;
    if db' != db {
      var ds := match step
        case Build(_, _) => DbStep.Engine(BeginWrite(if Busy(Leader(q')) then Leader(q').ops else []))
        case AppendToLog(_) => AppendRecord
        case Insert(_) => DbStep.Engine(InsertOne)
        case _ => DbStep.Engine(Publish);
      DbStepKeepsInv(db, ds, db');
      HistoryGrows(db, ds, db');
    }
  }

  lemma BackgroundLeaves(db: Db, step: DbStep, db': Db)
    requires DbNext(db, step, db') && !IsWrite(step) && !step.Recover?
    ensures db'.st.history == db.st.history && db'.st.inflight == db.st.inflight && db'.logged == db.logged
  {
    hide OutputsOk, OutputsClear, Replaced, NoResurrection, Ready, Applied, Added, PlacedClear, ValidFile;
  }

  lemma NobodyShows(db: Db, db': Db)
    requires DbNext(db, DbStep.Recover, db')
    ensures Shows(NOBODY, db', db'.st.history)
  {
    hide Replayed, Stored, MemLogged, LogsNamed, ManifestOk;
    assert db'.st.history + [] == db'.st.history;
  }

  ghost predicate IsSystemRun(run: seq<System>, steps: seq<SystemStep>) {
    && |run| == |steps| + 1
    && run[0] == System(NOBODY, FRESH_DB, [])
    && forall i :: 0 <= i < |steps| ==> SystemNext(run[i], steps[i], run[i + 1])
  }

  /** In every run that interleaves the threads of all writers with flushes, compactions, deletions and crashes, the
      invariants of queue, engine and files hold in every state. */
  lemma {:induction false} SystemRunsKeepInv(run: seq<System>, steps: seq<SystemStep>, n: nat)
    requires IsSystemRun(run, steps) && n < |run|
    ensures SystemInv(run[n])
  {
    hide SystemInv, SystemNext;
    if n == 0 {
      FreshSystem();
    } else {
      SystemRunsKeepInv(run, steps, n - 1);
      SystemStepKeepsInv(run[n - 1], steps[n - 1], run[n]);
    }
  }

  lemma FreshSystem()
    ensures SystemInv(System(NOBODY, FRESH_DB, []))
  {
    hide QueueInv, DbInv;
    FreshDbInv();
    NobodyYet();
  }

  /** What the writers that returned with success wrote is in the history of every later state, in the order in which
      they came, behind what was there when the database was opened; across any number of crashes. */
  lemma {:induction false} CommittedStays(run: seq<System>, steps: seq<SystemStep>, i: nat, j: nat)
    requires IsSystemRun(run, steps) && i <= j < |run|
    ensures run[i].db.st.history == run[i].base + Committed(run[i].q)
    ensures run[i].db.st.history <= run[j].db.st.history
  {
    hide QueueInv, DbInv, SystemNext, Committed, Leader;
    SystemRunsKeepInv(run, steps, i);
    if i < j {
      CommittedStays(run, steps, i, j - 1);
      SystemRunsKeepInv(run, steps, j - 1);
      SystemStepKeepsInv(run[j - 1], steps[j - 1], run[j]);
    }
  }

  /** The operations of a writer that returned with success are among those done. */
  lemma {:induction false} DoneHolds(q: Writers, ids: seq<nat>, w: nat) returns (k: nat)
    requires w in ids && w in q.requests && w in q.outcome && q.outcome[w] && q.requests[w].batch.Some?
    ensures k + |q.requests[w].batch.value.ops| <= |Done(q, ids)|
    ensures Done(q, ids)[k..k + |q.requests[w].batch.value.ops|] == q.requests[w].batch.value.ops
    decreases |ids|
  {
    var front, last := ids[..|ids| - 1], ids[|ids| - 1];
    if last == w {
      k := |Done(q, front)|;
    } else {
      assert ids == front + [last];
      k := DoneHolds(q, front, w);
    }
  }

  /** A batch whose writer returned with success stands in one piece in the history of that and every later state. */
  lemma WriterStays(run: seq<System>, steps: seq<SystemStep>, i: nat, j: nat, w: nat) returns (k: nat)
    requires IsSystemRun(run, steps) && i <= j < |run|
    requires var q := run[i].q; w in q.outcome && q.outcome[w] && w in q.requests && q.requests[w].batch.Some?
    ensures var ops := run[i].q.requests[w].batch.value.ops;
            && k + |ops| <= |run[i].db.st.history| <= |run[j].db.st.history|
            && run[j].db.st.history[k..k + |ops|] == ops
  {
    hide DbInv, IsSystemRun, Done, Recorded, Synced, Scheduled, Fifo, GroupRight, Shows;
    var q := run[i].q;
    var ops := q.requests[w].batch.value.ops;
    SystemRunsKeepInv(run, steps, i);
    CommittedStays(run, steps, i, j);
    RetiredDone(q);
    var n := DoneHolds(q, q.retired, w);
    k := |run[i].base| + n;
    assert run[i].db.st.history[k..k + |ops|] == Committed(q)[n..n + |ops|];
  }
}
