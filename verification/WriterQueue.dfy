/** Group commit: the queue of writers, the leader and its group (db/db_impl.cc `Write`, `BuildBatchGroup`).

    Every thread has its own program counter.  A step is a section that runs under the mutex, or one action of
    the leader while the mutex is released; steps of all threads interleave freely. */
module WriterQueue {
  import opened InternalKeys
  import opened Meaning

  /** A batch, and the size of its encoding. */
  datatype Batch = Batch(ops: seq<Op>, bytes: nat)

  /** What a writer asks for; no batch means a forced memtable switch. */
  datatype Request = Request(batch: Option<Batch>, sync: bool)

  // ---------- the group ----------

  const KB128: nat := 0x2_0000

  function MaxSize(first: nat): nat {
    if first <= KB128 then first + KB128 else 0x10_0000
  }

  function Bytes0(r: Request): nat {
    if r.batch.Some? then r.batch.value.bytes else 0
  }

  function TotalBytes(rs: seq<Request>): nat {
    if rs == [] then 0 else TotalBytes(rs[..|rs| - 1]) + Bytes0(rs[|rs| - 1])
  }

  function GroupOps(rs: seq<Request>): seq<Op> {
    if rs == [] then []
    else
      var last := rs[|rs| - 1];
      GroupOps(rs[..|rs| - 1]) + (if last.batch.Some? then last.batch.value.ops else [])
  }

  /** Writer `j` may join the group that the first one leads. */
  predicate Joins(rs: seq<Request>, j: nat)
    requires j < |rs|
  {
    && (rs[j].sync ==> rs[0].sync)
    && (rs[j].batch.Some? ==> TotalBytes(rs[..j + 1]) <= MaxSize(Bytes0(rs[0])))
  }

  /** The first `n` writers are the group: all join and the next one, if any, does not. */
  ghost predicate IsGroup(rs: seq<Request>, n: nat) {
    && 1 <= n <= |rs|
    && (forall j :: 1 <= j < n ==> Joins(rs, j))
    && (n < |rs| ==> !Joins(rs, n))
  }

  /** `BuildBatchGroup`: the position after the last writer, and the batches put together. */
  method BuildBatchGroup(writers: seq<Request>) returns (n: nat, ops: seq<Op>)
    requires writers != [] && writers[0].batch.Some?
    ensures IsGroup(writers, n) && ops == GroupOps(writers[..n])
  {
    var first := writers[0];
    ops := first.batch.value.ops;
    var size := first.batch.value.bytes;
    var maxSize := 0x10_0000;
    if size <= KB128 {
      maxSize := size + KB128;
    }
    n := 1;
    assert writers[..1][..0] == [];
    while n < |writers|
      invariant 1 <= n <= |writers|
      invariant forall j :: 1 <= j < n ==> Joins(writers, j)
      invariant size == TotalBytes(writers[..n]) && ops == GroupOps(writers[..n])
    {
      var w := writers[n];
      assert writers[..n + 1][..n] == writers[..n];
      if w.sync && !first.sync {
        break;
      }
      if w.batch.Some? {
        size := size + w.batch.value.bytes;
        if size > maxSize {
          break;
        }
        ops := ops + w.batch.value.ops;
      }
      n := n + 1;
    }
  }

  /** What the leader's size allows: a group is never larger than a megabyte, or a leader of at most 128 KB by more than
      128 KB than the leader, unless the leader alone is; and it leaves out the next writer only for one of two reasons:
      that writer wants a sync the leader does not, or the group would become larger than that. */
  lemma GroupBytes(rs: seq<Request>, n: nat)
    requires IsGroup(rs, n) && rs[0].batch.Some?
    ensures var first := rs[0].batch.value.bytes;
            var limit := if first <= 131072 then first + 131072 else 1048576;
            && (TotalBytes(rs[..n]) == first || TotalBytes(rs[..n]) <= limit)
            && (n < |rs| ==>
                 (rs[n].sync && !rs[0].sync) || (rs[n].batch.Some? && TotalBytes(rs[..n + 1]) > limit))
  {
    LastToAdd(rs, n);
  }

  /** Writers without a batch add nothing: the size is that of the leader, or of the group up to a writer that joined
      it with a batch. */
  lemma {:induction false} LastToAdd(rs: seq<Request>, n: nat)
    requires 1 <= n <= |rs| && forall j :: 1 <= j < n ==> Joins(rs, j)
    ensures TotalBytes(rs[..n]) == Bytes0(rs[0]) || TotalBytes(rs[..n]) <= MaxSize(Bytes0(rs[0]))
  {
    assert rs[..n][..n - 1] == rs[..n - 1];
    if n > 1 {
      assert Joins(rs, n - 1);
      LastToAdd(rs, n - 1);
    }
  }

  // ---------- the protocol ----------

  /** Where a thread is: waiting on its condition variable, about to look at the queue, in `MakeRoomForWrite`,
      about to log its group, inserting it, or out. */
  datatype Pc =
    | Asleep
    | Awake
    | MakingRoom
    | Logging(size: nat, ops: seq<Op>)
    | Inserting(size: nat, ops: seq<Op>, inserted: nat)
    | Returned(ok: bool)

  /** A log record: its first sequence number, its operations, whether the file was synced, whose it is. */
  datatype GroupRecord = GroupRecord(first: nat, ops: seq<Op>, sync: bool, members: seq<nat>)

  /** `outcome` is set for writers taken off the queue.  `arrived` and `retired` list writers in the order they
      entered and left the queue. */
  datatype Writers = Writers(
    requests: map<nat, Request>,
    pcs: map<nat, Pc>,
    queue: seq<nat>,
    outcome: map<nat, bool>,
    lastSequence: nat,
    log: seq<GroupRecord>,
    mem: seq<Entry>,
    arrived: seq<nat>,
    retired: seq<nat>)

  const NOBODY: Writers := Writers(map[], map[], [], map[], 0, [], [], [], [])

  datatype QueueStep =
    | Arrive(who: nat, request: Request)
    | SpuriousWakeup(who: nat)
    | Look(who: nat)
    | Fail(who: nat)
    | Build(who: nat, size: nat)
    | AppendToLog(who: nat)
    | Insert(who: nat)
    | Complete(who: nat)

  function Requests(q: Writers, ids: seq<nat>): (rs: seq<Request>)
    requires forall w :: w in ids ==> w in q.requests
    ensures |rs| == |ids|
  {
    seq(|ids|, i requires 0 <= i < |ids| => q.requests[ids[i]])
  }

  /** The leader takes the first `n` writers off the queue, wakes them and the new front, and leaves. */
  function Retire(q: Writers, n: nat, ok: bool): Writers
    requires 1 <= n <= |q.queue|
  {
    var gone := q.queue[..n];
    q.(queue := q.queue[n..],
       retired := q.retired + gone,
       outcome := map w | w in q.outcome.Keys + (set x | x in gone) :: if w in q.outcome then q.outcome[w] else ok,
       pcs := map w | w in q.pcs ::
                if w == q.queue[0] then Returned(ok)
                else if q.pcs[w].Asleep? && (w in gone || (n < |q.queue| && w == q.queue[n])) then Awake
                else q.pcs[w])
  }

  ghost predicate QueueNext(q: Writers, step: QueueStep, q': Writers) {
    match step
    case Arrive(w, r) =>
      && w !in q.pcs && w !in q.requests
      && q' == q.(requests := q.requests[w := r], queue := q.queue + [w], arrived := q.arrived + [w],
                  pcs := q.pcs[w := if q.queue == [] then Awake else Asleep])
    case SpuriousWakeup(w) =>
      w in q.pcs && q.pcs[w].Asleep? && q' == q.(pcs := q.pcs[w := Awake])
    case Look(w) =>
      && w in q.pcs && q.pcs[w].Awake?
      && q' == q.(pcs := q.pcs[w := if w in q.outcome then Returned(q.outcome[w])
                                    else if q.queue != [] && q.queue[0] == w then MakingRoom
                                    else Asleep])
    case Fail(w) =>
      // A background error is handed to the leader alone.
      && w in q.pcs && q.pcs[w].MakingRoom? && q.queue != []
      && q' == Retire(q, 1, false)
    case Build(w, n) =>
      && w in q.pcs && q.pcs[w].MakingRoom? && q.queue != []
      && (forall x :: x in q.queue ==> x in q.requests)
      && var rs := Requests(q, q.queue);
         if rs[0].batch.None? then n == 1 && q' == Retire(q, 1, true)
         else IsGroup(rs, n) && q' == q.(pcs := q.pcs[w := Logging(n, GroupOps(rs[..n]))])
    case AppendToLog(w) =>
      && w in q.pcs && q.pcs[w].Logging? && w in q.requests && q.pcs[w].size <= |q.queue|
      && var pc := q.pcs[w];
         q' == q.(pcs := q.pcs[w := Inserting(pc.size, pc.ops, 0)],
                  log := q.log + [GroupRecord(q.lastSequence + 1, pc.ops, q.requests[w].sync, q.queue[..pc.size])])
    case Insert(w) =>
      && w in q.pcs && q.pcs[w].Inserting? && q.pcs[w].inserted < |q.pcs[w].ops|
      && var pc := q.pcs[w];
         q' == q.(pcs := q.pcs[w := pc.(inserted := pc.inserted + 1)],
                  mem := q.mem + [EntryOf(pc.ops[pc.inserted], q.lastSequence + 1 + pc.inserted)])
    case Complete(w) =>
      && w in q.pcs && q.pcs[w].Inserting? && q.pcs[w].inserted == |q.pcs[w].ops|
      && 1 <= q.pcs[w].size <= |q.queue|
      && q' == Retire(q, q.pcs[w].size, true).(lastSequence := q.lastSequence + |q.pcs[w].ops|)
  }

  // ---------- what every step keeps ----------

  ghost predicate NoRepeats(ids: seq<nat>) {
    forall i, j :: 0 <= i < j < |ids| ==> ids[i] != ids[j]
  }

  /** The queue is first in, first out. */
  ghost predicate Fifo(q: Writers) {
    && q.arrived == q.retired + q.queue && NoRepeats(q.arrived)
    && (forall w :: w in q.requests <==> w in q.arrived)
    && (forall w :: w in q.pcs <==> w in q.arrived)
    && (forall w :: w in q.outcome <==> w in q.retired)
  }

  predicate Leading(pc: Pc) {
    pc.MakingRoom? || pc.Logging? || pc.Inserting?
  }

  /** Only the front leads; nobody sleeps who is done or in front. */
  ghost predicate Scheduled(q: Writers) {
    && (forall w :: w in q.pcs && Leading(q.pcs[w]) ==> q.queue != [] && w == q.queue[0])
    && (forall w :: w in q.pcs && q.pcs[w].Asleep? ==> w in q.queue && w != q.queue[0])
    && (forall w :: w in q.pcs && q.pcs[w].Returned? ==> w in q.outcome && q.pcs[w].ok == q.outcome[w])
  }

  /** The operations of the writers that left with success, in queue order. */
  function Done(q: Writers, ids: seq<nat>): seq<Op> {
    if ids == [] then []
    else
      var w := ids[|ids| - 1];
      Done(q, ids[..|ids| - 1]) +
        (if w in q.requests && w in q.outcome && q.outcome[w]
          && q.requests[w].batch.Some? then q.requests[w].batch.value.ops else [])
  }

  function Committed(q: Writers): seq<Op> {
    Done(q, q.retired)
  }

  /** The state of the leader's thread. */
  function Leader(q: Writers): Pc {
    if q.queue != [] && q.queue[0] in q.pcs then q.pcs[q.queue[0]] else Awake
  }

  ghost predicate GroupRight(q: Writers) {
    (Leader(q).Logging? || Leader(q).Inserting?) ==>
      && (forall w :: w in q.queue ==> w in q.requests)
      && 1 <= Leader(q).size <= |q.queue|
      && Leader(q).ops == GroupOps(Requests(q, q.queue[..Leader(q).size]))
      && (forall i :: 0 <= i < Leader(q).size && q.requests[q.queue[i]].sync ==> q.requests[q.queue[0]].sync)
      && (Leader(q).Inserting? ==> Leader(q).inserted <= |Leader(q).ops|)
  }

  function LogOps(log: seq<GroupRecord>): seq<Op> {
    if log == [] then [] else LogOps(log[..|log| - 1]) + log[|log| - 1].ops
  }

  /** The records take up the sequence numbers from 1 on without a gap. */
  ghost predicate Contiguous(log: seq<GroupRecord>) {
    forall i :: 0 <= i < |log| ==> log[i].first == |LogOps(log[..i])| + 1
  }

  /** Log and memtable hold what is committed, and what the leader has added to each. */
  ghost predicate Recorded(q: Writers) {
    && q.lastSequence == |Committed(q)|
    && Contiguous(q.log)
    && LogOps(q.log) == Committed(q) + (if Leader(q).Inserting? then Leader(q).ops else [])
    && (var n := if Leader(q).Inserting? then Leader(q).inserted else 0;
        |q.mem| == q.lastSequence + n)
    && |q.mem| <= |LogOps(q.log)|
    && (forall i :: 0 <= i < |q.mem| ==> q.mem[i] == EntryOf(LogOps(q.log)[i], i + 1))
  }

  ghost predicate InRecord(q: Writers, w: nat) {
    exists i :: 0 <= i < |q.log| && w in q.log[i].members
  }

  /** A synced writer is in a synced record, and every writer that left with success is in a record. */
  ghost predicate Synced(q: Writers) {
    && (forall i, w :: 0 <= i < |q.log| && w in q.log[i].members ==>
         w in q.requests && (q.requests[w].sync ==> q.log[i].sync))
    && (forall w :: w in q.outcome && q.outcome[w] && w in q.requests && q.requests[w].batch.Some? ==> InRecord(q, w))
    && (Leader(q).Inserting? && Leader(q).size <= |q.queue| ==> forall i :: 0 <= i < Leader(q).size ==>
         InRecord(q, q.queue[i]))
  }

  ghost predicate QueueInv(q: Writers) {
    Fifo(q) && Scheduled(q) && GroupRight(q) && Recorded(q) && Synced(q)
  }

  // ---------- taking a group off the queue ----------

  lemma {:induction false} DoneSame(q: Writers, q': Writers, ids: seq<nat>)
    requires forall w :: w in ids ==> (w in q.requests <==> w in q'.requests) && (w in q.outcome <==> w in q'.outcome)
    requires forall w :: w in ids && w in q.requests ==> q.requests[w] == q'.requests[w]
    requires forall w :: w in ids && w in q.outcome ==> q.outcome[w] == q'.outcome[w]
    ensures Done(q, ids) == Done(q', ids)
    decreases |ids|
  {
    if ids != [] {
      DoneSame(q, q', ids[..|ids| - 1]);
      assert ids[|ids| - 1] in ids;
    }
  }

  /** A group leaves: with success it adds its operations, else nothing. */
  lemma {:induction false} DoneAppend(q: Writers, ids: seq<nat>, gone: seq<nat>, ok: bool)
    requires forall w :: w in gone ==> w in q.requests && w in q.outcome && q.outcome[w] == ok
    ensures Done(q, ids + gone) == Done(q, ids) + (if ok then GroupOps(Requests(q, gone)) else [])
    decreases |gone|
  {
    hide Requests;
    if gone == [] {
      assert ids + gone == ids;
      assert Requests(q, gone) == [];
    } else {
      var n := |gone| - 1;
      var w := gone[n];
      DoneAppend(q, ids, gone[..n], ok);
      RequestsLast(q, gone);
      DoneLast(q, ids, gone);
      var a, b := Done(q, ids), GroupOps(Requests(q, gone[..n]));
      var more := if q.requests[w].batch.Some? then q.requests[w].batch.value.ops else [];
      assert a + b + more == a + (b + more);
    }
  }

  lemma RequestsLast(q: Writers, ids: seq<nat>)
    requires ids != [] && forall w :: w in ids ==> w in q.requests
    ensures Requests(q, ids)[..|ids| - 1] == Requests(q, ids[..|ids| - 1])
    ensures Requests(q, ids)[|ids| - 1] == q.requests[ids[|ids| - 1]]
  {
  }

  lemma DoneLast(q: Writers, ids: seq<nat>, gone: seq<nat>)
    requires gone != []
    ensures (ids + gone)[..|ids + gone| - 1] == ids + gone[..|gone| - 1]
    ensures (ids + gone)[|ids + gone| - 1] == gone[|gone| - 1]
  {
  }

  /** What `Retire` does to one thread. */
  lemma RetireAt(q: Writers, n: nat, ok: bool, q': Writers)
    requires 1 <= n <= |q.queue| && q' == Retire(q, n, ok)
    ensures q' == q.(queue := q.queue[n..], retired := q.retired + q.queue[..n], outcome := q'.outcome, pcs := q'.pcs)
    ensures forall w :: w in q'.outcome <==> w in q.outcome || w in q.queue[..n]
    ensures forall w :: w in q.outcome ==> q'.outcome[w] == q.outcome[w]
    ensures forall w :: w in q.queue[..n] && w !in q.outcome ==> q'.outcome[w] == ok
    ensures forall w :: w in q'.pcs <==> w in q.pcs
    ensures forall w :: w in q.pcs && w != q.queue[0] ==>
              q'.pcs[w] == if q.pcs[w].Asleep?
                && (w in q.queue[..n] || (n < |q.queue| && w == q.queue[n])) then Awake else q.pcs[w]
    ensures q.queue[0] in q.pcs ==> q'.pcs[q.queue[0]] == Returned(ok)
  {
  }

  lemma TwoParts(ids: seq<nat>, n: nat)
    requires n <= |ids|
    ensures forall w :: w in ids <==> w in ids[..n] || w in ids[n..]
  {
    assert ids == ids[..n] + ids[n..];
  }

  /** Where one thread stands: with the requests, in the queue or done. */
  lemma FifoAt(q: Writers, w: nat)
    requires Fifo(q)
    ensures w in q.requests <==> w in q.pcs
    ensures w in q.outcome <==> w in q.retired
    ensures w in q.pcs <==> w in q.retired || w in q.queue
    ensures w in q.queue ==> w !in q.retired
  {
    hide NoRepeats;
    QueuedNotDone(q);
  }

  lemma FifoFrom(q: Writers)
    requires q.arrived == q.retired + q.queue && NoRepeats(q.arrived)
    requires forall w :: w in q.requests <==> w in q.pcs
    requires forall w :: w in q.outcome <==> w in q.retired
    requires forall w :: w in q.pcs <==> w in q.retired || w in q.queue
    ensures Fifo(q)
  {
    hide NoRepeats;
  }

  lemma RetireFifo(q: Writers, n: nat, ok: bool)
    requires Fifo(q) && 1 <= n <= |q.queue|
    ensures Fifo(Retire(q, n, ok))
  {
    var q' := Retire(q, n, ok);
    assert q'.arrived == q'.retired + q'.queue && NoRepeats(q'.arrived) by {
      hide NoRepeats;
      assert q.queue == q.queue[..n] + q.queue[n..];
    }
    hide Fifo, NoRepeats, Retire;
    RetireAt(q, n, ok, q');
    TwoParts(q.queue, n);
    forall w
      ensures w in q'.requests <==> w in q'.pcs
      ensures w in q'.outcome <==> w in q'.retired
      ensures w in q'.pcs <==> w in q'.retired || w in q'.queue
    {
      FifoAt(q, w);
    }
    FifoFrom(q');
  }

  /** Nobody is in the queue twice, or in it and done. */
  lemma QueuedNotDone(q: Writers)
    requires Fifo(q)
    ensures NoRepeats(q.queue)
    ensures forall w :: w in q.queue ==> w !in q.outcome && w in q.requests && w in q.pcs
  {
    forall i, j | 0 <= i < j < |q.queue| ensures q.queue[i] != q.queue[j] {
      assert q.arrived[|q.retired| + i] == q.queue[i] && q.arrived[|q.retired| + j] == q.queue[j];
    }
    forall w | w in q.queue ensures w !in q.retired {
      var j :| 0 <= j < |q.queue| && q.queue[j] == w;
      forall i | 0 <= i < |q.retired| ensures q.retired[i] != w {
        assert q.arrived[i] == q.retired[i] && q.arrived[|q.retired| + j] == w;
      }
    }
  }

  lemma RetireScheduled(q: Writers, n: nat, ok: bool)
    requires Fifo(q) && Scheduled(q) && 1 <= n <= |q.queue|
    ensures Scheduled(Retire(q, n, ok)) && !Leading(Leader(Retire(q, n, ok)))
  {
    hide Fifo, NoRepeats, Retire, Scheduled;
    var q' := Retire(q, n, ok);
    RetireAt(q, n, ok, q');
    TwoParts(q.queue, n);
    assert q.queue[..n][0] == q.queue[0];
    forall w | w in q'.pcs
      ensures ThreadOk(q', w) && !Leading(q'.pcs[w])
    {
      FifoAt(q, w);
      ScheduledAt(q, w);
    }
    ScheduledFrom(q');
  }

  /** `Scheduled` for one thread. */
  ghost predicate ThreadOk(q: Writers, w: nat)
    requires w in q.pcs
  {
    && (Leading(q.pcs[w]) ==> q.queue != [] && w == q.queue[0])
    && (q.pcs[w].Asleep? ==> w in q.queue && w != q.queue[0])
    && (q.pcs[w].Returned? ==> w in q.outcome && q.pcs[w].ok == q.outcome[w])
  }

  lemma ScheduledAt(q: Writers, w: nat)
    requires Scheduled(q) && w in q.pcs
    ensures ThreadOk(q, w)
  {
  }

  lemma ScheduledFrom(q: Writers)
    requires forall w :: w in q.pcs ==> ThreadOk(q, w)
    ensures Scheduled(q)
  {
  }

  lemma RetireDone(q: Writers, n: nat, ok: bool)
    requires Fifo(q) && 1 <= n <= |q.queue|
    ensures forall w :: w in q.queue ==> w in q.requests
    ensures Committed(Retire(q, n, ok)) == Committed(q) + (if ok then GroupOps(Requests(q, q.queue[..n])) else [])
  {
    hide Fifo, NoRepeats, Retire, Requests;
    var q' := Retire(q, n, ok);
    RetireAt(q, n, ok, q');
    QueuedNotDone(q);
    RetiredDone(q);
    DoneSame(q, q', q.retired);
    DoneAppend(q', q.retired, q.queue[..n], ok);
    SameRequests(q, q', q.queue[..n]);
  }

  lemma RetiredDone(q: Writers)
    requires Fifo(q)
    ensures forall w :: w in q.retired <==> w in q.outcome
    ensures forall w :: w in q.retired ==> w in q.requests
  {
    hide NoRepeats;
  }

  lemma SameRequests(q: Writers, q': Writers, ids: seq<nat>)
    requires forall w :: w in ids ==> w in q.requests && w in q'.requests && q.requests[w] == q'.requests[w]
    ensures Requests(q, ids) == Requests(q', ids)
  {
  }

  // ---------- each step ----------

  predicate Busy(pc: Pc) {
    pc.Logging? || pc.Inserting?
  }

  /** Nothing but the waiting part of the state changes. */
  ghost predicate Quiet(q: Writers, q': Writers) {
    && q'.(requests := q.requests, pcs := q.pcs, queue := q.queue, arrived := q.arrived) == q
    && (forall w :: w in q.requests ==> w in q'.requests && q'.requests[w] == q.requests[w])
    && q.queue <= q'.queue
    && (if Busy(Leader(q)) then Leader(q') == Leader(q) else !Busy(Leader(q')))
  }

  lemma QuietKeeps(q: Writers, q': Writers)
    requires Fifo(q) && GroupRight(q) && Recorded(q) && Synced(q) && Quiet(q, q') && Fifo(q')
    ensures GroupRight(q') && Recorded(q') && Synced(q')
  {
    hide Fifo, Leader, GroupOps, LogOps, Contiguous, Done, Requests;
    QuietCommitted(q, q');
    QuietGroup(q, q');
    forall w ensures InRecord(q, w) <==> InRecord(q', w) {
    }
    assert Synced(q') by {
      QuietOutcome(q, q');
      assert Leader(q').Inserting? ==> Leader(q') == Leader(q);
      assert q'.log == q.log;
    }
  }

  lemma QuietCommitted(q: Writers, q': Writers)
    requires Fifo(q) && Quiet(q, q') && Fifo(q')
    ensures Committed(q') == Committed(q)
  {
    hide NoRepeats;
    DoneSame(q, q', q.retired);
  }

  lemma QuietOutcome(q: Writers, q': Writers)
    requires Fifo(q) && Quiet(q, q')
    ensures forall w :: w in q.outcome ==> w in q.requests
    ensures q'.outcome == q.outcome
  {
    hide NoRepeats;
  }

  lemma QuietGroup(q: Writers, q': Writers)
    requires GroupRight(q) && Quiet(q, q') && Fifo(q')
    ensures GroupRight(q')
  {
    hide GroupOps, Leader, NoRepeats;
    if Busy(Leader(q')) {
      var n := Leader(q).size;
      assert q'.queue[..n] == q.queue[..n];
      assert Requests(q', q'.queue[..n]) == Requests(q, q.queue[..n]);
      forall i | 0 <= i < n && q'.requests[q'.queue[i]].sync ensures q'.requests[q'.queue[0]].sync {
        assert q'.queue[i] == q.queue[i] && q.queue[i] in q.queue;
      }
    }
  }

  lemma ArriveFifo(q: Writers, w: nat, r: Request, q': Writers)
    requires Fifo(q) && QueueNext(q, Arrive(w, r), q')
    ensures Fifo(q')
  {
    hide Retire, IsGroup, Requests, GroupOps;
    assert w !in q.arrived;
  }

  lemma ArriveKeeps(q: Writers, w: nat, r: Request, q': Writers)
    requires QueueInv(q) && QueueNext(q, Arrive(w, r), q')
    ensures QueueInv(q')
  {
    hide Recorded, Synced, GroupRight, Fifo, QueueNext;
    ArriveFifo(q, w, r, q');
    ArriveScheduled(q, w, r, q');
    QuietKeeps(q, q');
  }

  lemma ArriveScheduled(q: Writers, w: nat, r: Request, q': Writers)
    requires Fifo(q) && Scheduled(q) && QueueNext(q, Arrive(w, r), q')
    ensures Scheduled(q') && Quiet(q, q')
  {
    hide NoRepeats, Retire, IsGroup, Requests, GroupOps, Fifo, Scheduled;
    FifoAt(q, w);
    forall x | x in q'.pcs ensures ThreadOk(q', x) {
      if x != w {
        ScheduledAt(q, x);
      }
    }
    ScheduledFrom(q');
    if q.queue != [] {
      assert q'.queue[0] == q.queue[0];
      FifoAt(q, q.queue[0]);
    }
  }

  /** A step of one thread that leaves the queue alone. */
  lemma ThreadMoves(q: Writers, w: nat, pc: Pc, q': Writers)
    requires Fifo(q) && w in q.pcs && q' == q.(pcs := q.pcs[w := pc], log := q'.log, mem := q'.mem)
    ensures Fifo(q')
  {
    hide NoRepeats;
  }

  lemma ThreadScheduled(q: Writers, w: nat, pc: Pc, q': Writers)
    requires Scheduled(q) && w in q.pcs && q' == q.(pcs := q.pcs[w := pc], log := q'.log, mem := q'.mem)
    requires ThreadOk(q', w)
    ensures Scheduled(q')
  {
    hide Scheduled;
    forall x | x in q'.pcs ensures ThreadOk(q', x) {
      ScheduledAt(q, x);
    }
    ScheduledFrom(q');
  }

  lemma WaitingScheduled(q: Writers, step: QueueStep, q': Writers)
    requires Fifo(q) && Scheduled(q) && QueueNext(q, step, q') && (step.SpuriousWakeup? || step.Look?)
    ensures Scheduled(q') && Quiet(q, q') && Fifo(q')
  {
    hide Fifo, Retire, IsGroup, Requests, GroupOps, Scheduled;
    var w := step.who;
    ThreadMoves(q, w, q'.pcs[w], q');
    FifoAt(q, w);
    ScheduledAt(q, w);
    ThreadScheduled(q, w, q'.pcs[w], q');
  }

  /** Waking up and looking at the queue. */
  lemma WaitingKeeps(q: Writers, step: QueueStep, q': Writers)
    requires QueueInv(q) && QueueNext(q, step, q') && (step.SpuriousWakeup? || step.Look?)
    ensures QueueInv(q')
  {
    hide Recorded, Synced, GroupRight, Fifo, Scheduled, Quiet, QueueNext;
    WaitingScheduled(q, step, q');
    QuietKeeps(q, q');
  }

  lemma RetireKeeps(q: Writers, n: nat, ok: bool, q': Writers)
    requires QueueInv(q) && 1 <= n <= |q.queue| && !Leader(q).Logging?
    requires Leader(q).Inserting? ==> ok && n == Leader(q).size && Leader(q).inserted == |Leader(q).ops|
    requires !Leader(q).Inserting? ==> n == 1
    requires ok && !Leader(q).Inserting? ==> forall w :: w in q.queue[..n] && w in q.requests ==>
               q.requests[w].batch.None?
    requires q' == Retire(q, n, ok).(lastSequence :=
             q.lastSequence + (if Leader(q).Inserting? then |Leader(q).ops| else 0))
    ensures QueueInv(q')
  {
    hide Fifo, Scheduled, Done, LogOps, GroupOps, Contiguous, Requests, NoRepeats;
    RetireFifo(q, n, ok);
    RetireScheduled(q, n, ok);
    RetireDone(q, n, ok);
    if !Leader(q).Inserting? && ok {
      NoBatch(q);
    }
    var r := Retire(q, n, ok);
    assert Fifo(q') by { FifoFrame(r, q'); }
    assert Scheduled(q') && Leader(q') == Leader(r) by { ScheduledFrame(r, q'); }
    assert Committed(q') == Committed(r) by { DoneSame(r, q', r.retired); }
    assert Recorded(q');
    RetireSynced(q, n, ok, q');
  }

  /** A leader without a batch adds no operations. */
  lemma NoBatch(q: Writers)
    requires Fifo(q) && q.queue != [] && forall w :: w in q.queue ==> w in q.requests
    requires q.requests[q.queue[0]].batch.None?
    ensures GroupOps(Requests(q, q.queue[..1])) == []
  {
    assert Requests(q, q.queue[..1])[..0] == [];
  }

  lemma FifoFrame(q: Writers, q': Writers)
    requires Fifo(q) && q' == q.(lastSequence := q'.lastSequence)
    ensures Fifo(q')
  {
    hide NoRepeats;
  }

  lemma ScheduledFrame(q: Writers, q': Writers)
    requires Scheduled(q) && q' == q.(lastSequence := q'.lastSequence)
    ensures Scheduled(q') && Leader(q') == Leader(q)
  {
  }

  lemma SameRecords(q: Writers, q': Writers, w: nat)
    requires q'.log == q.log
    ensures InRecord(q, w) <==> InRecord(q', w)
  {
  }

  lemma RetireSynced(q: Writers, n: nat, ok: bool, q': Writers)
    requires Fifo(q) && Scheduled(q) && Synced(q) && 1 <= n <= |q.queue|
    requires Leader(q).Inserting? ==> n == Leader(q).size
    requires ok && !Leader(q).Inserting? ==> forall w :: w in q.queue[..n] && w in q.requests ==>
               q.requests[w].batch.None?
    requires q' == Retire(q, n, ok).(lastSequence := q'.lastSequence)
    ensures Synced(q')
  {
    hide NoRepeats, Fifo, Scheduled, Retire, Leader, InRecord;
    RetireAt(q, n, ok, Retire(q, n, ok));
    RetireScheduled(q, n, ok);
    QueuedNotDone(q);
    ScheduledFrame(Retire(q, n, ok), q');
    forall w ensures InRecord(q, w) <==> InRecord(q', w) {
      SameRecords(q, q', w);
    }
    forall w | w in q'.outcome && q'.outcome[w] && w in q'.requests && q'.requests[w].batch.Some?
      ensures InRecord(q', w)
    {
      if w !in q.outcome {
        assert w in q.queue[..n];
        assert InRecord(q, w);
      }
    }
  }

  /** The thread that takes a leader's step is the front, and its state is the leader's. */
  lemma LeaderIs(q: Writers, w: nat)
    requires Fifo(q) && Scheduled(q) && w in q.pcs && Leading(q.pcs[w])
    ensures q.queue != [] && w == q.queue[0] && Leader(q) == q.pcs[w]
    ensures forall x :: x in q.queue ==> x in q.requests
  {
    hide NoRepeats;
  }

  lemma BuildKeeps(q: Writers, w: nat, n: nat, q': Writers)
    requires QueueInv(q) && QueueNext(q, Build(w, n), q')
    ensures QueueInv(q')
  {
    hide Fifo, Scheduled, Retire, Recorded, Synced, IsGroup, GroupOps, Requests;
    LeaderIs(q, w);
    var rs := Requests(q, q.queue);
    if rs[0].batch.None? {
      assert rs[0] == q.requests[w] by { RequestAt(q, q.queue, 0); }
      assert q.queue[..1] == [w];
      RetireAt(q, 1, true, q');
      RetireKeeps(q, 1, true, q');
    } else {
      ThreadMoves(q, w, q'.pcs[w], q');
      ThreadScheduled(q, w, q'.pcs[w], q');
      GroupBuilt(q, w, n, q');
      StillRecorded(q, q');
    }
  }

  lemma RequestAt(q: Writers, ids: seq<nat>, i: nat)
    requires i < |ids| && forall w :: w in ids ==> w in q.requests
    ensures Requests(q, ids)[i] == q.requests[ids[i]]
  {
  }

  lemma GroupBuilt(q: Writers, w: nat, n: nat, q': Writers)
    requires q.queue != [] && q.queue[0] == w && w in q.pcs && forall x :: x in q.queue ==> x in q.requests
    requires var rs := Requests(q, q.queue);
             IsGroup(rs, n) && q' == q.(pcs := q.pcs[w := Logging(n, GroupOps(rs[..n]))])
    ensures GroupRight(q')
  {
    hide GroupOps, TotalBytes;
    var rs := Requests(q, q.queue);
    assert Requests(q', q'.queue[..n]) == rs[..n];
    forall i | 0 <= i < n && q.requests[q.queue[i]].sync ensures q.requests[q.queue[0]].sync {
      assert i == 0 || Joins(rs, i);
    }
  }

  /** From `MakeRoomForWrite` to the log: nothing is written yet. */
  lemma StillRecorded(q: Writers, q': Writers)
    requires Recorded(q) && Synced(q) && q' == q.(pcs := q'.pcs) && !Leader(q).Inserting? && !Leader(q').Inserting?
    ensures Recorded(q') && Synced(q')
  {
    hide LogOps, Contiguous, Done, Leader;
    DoneSame(q, q', q.retired);
    forall w | InRecord(q, w) ensures InRecord(q', w) {
    }
  }

  lemma AppendKeeps(q: Writers, w: nat, q': Writers)
    requires QueueInv(q) && QueueNext(q, AppendToLog(w), q')
    ensures QueueInv(q')
  {
    hide Fifo, Scheduled, Recorded, Synced, GroupOps, Requests;
    LeaderIs(q, w);
    ThreadMoves(q, w, q'.pcs[w], q');
    ThreadScheduled(q, w, q'.pcs[w], q');
    assert GroupRight(q') by { SameRequests(q, q', q.queue[..Leader(q).size]); }
    AppendRecorded(q, w, q');
    AppendSynced(q, w, q');
  }

  lemma AppendRecorded(q: Writers, w: nat, q': Writers)
    requires Recorded(q) && QueueNext(q, AppendToLog(w), q') && q.queue != [] && w == q.queue[0]
    ensures Recorded(q')
  {
    hide Done, Requests, GroupOps, Retire, IsGroup, LogOps, Contiguous;
    DoneSame(q, q', q.retired);
    OneMoreRecord(q.log, q'.log[|q.log|], q'.log);
  }

  lemma OneMoreRecord(log: seq<GroupRecord>, r: GroupRecord, log': seq<GroupRecord>)
    requires Contiguous(log) && r.first == |LogOps(log)| + 1 && log' == log + [r]
    ensures Contiguous(log') && LogOps(log') == LogOps(log) + r.ops
  {
    hide LogOps;
    assert log'[..|log|] == log;
    forall i | 0 <= i < |log'| ensures log'[i].first == |LogOps(log'[..i])| + 1 {
      if i < |log| {
        assert log'[..i] == log[..i];
      }
    }
    LogOpsLast(log, r, log');
  }

  lemma LogOpsLast(log: seq<GroupRecord>, r: GroupRecord, log': seq<GroupRecord>)
    requires log' == log + [r]
    ensures LogOps(log') == LogOps(log) + r.ops
  {
    assert log'[..|log'| - 1] == log;
  }

  lemma AppendSynced(q: Writers, w: nat, q': Writers)
    requires Synced(q) && GroupRight(q) && QueueNext(q, AppendToLog(w), q') && q.queue != [] && w == q.queue[0]
    ensures Synced(q')
  {
    hide GroupOps, Requests, Retire, IsGroup;
    var members := q.queue[..Leader(q).size];
    var last := |q.log|;
    forall x | InRecord(q, x) ensures InRecord(q', x) {
      var i :| 0 <= i < |q.log| && x in q.log[i].members;
      assert q'.log[i] == q.log[i];
    }
    forall i, x | 0 <= i < |q'.log| && x in q'.log[i].members
      ensures x in q'.requests && (q'.requests[x].sync ==> q'.log[i].sync)
    {
      if i < last {
        assert q'.log[i] == q.log[i];
      } else {
        assert x in members;
      }
    }
    forall i | 0 <= i < Leader(q').size ensures InRecord(q', q'.queue[i]) {
      assert q'.queue[i] == members[i] && members[i] in q'.log[last].members;
    }
  }

  lemma InsertKeeps(q: Writers, w: nat, q': Writers)
    requires QueueInv(q) && QueueNext(q, Insert(w), q')
    ensures QueueInv(q')
  {
    hide Fifo, Scheduled, GroupOps, Requests, LogOps, Contiguous, Done;
    LeaderIs(q, w);
    ThreadMoves(q, w, q'.pcs[w], q');
    ThreadScheduled(q, w, q'.pcs[w], q');
    assert GroupRight(q') by { SameRequests(q, q', q.queue[..Leader(q).size]); }
    DoneSame(q, q', q.retired);
    assert Recorded(q');
    forall x | InRecord(q, x) ensures InRecord(q', x) {
    }
    assert Synced(q');
  }

  /** Every step of every thread keeps the invariant. */
  lemma QueueStepKeepsInv(q: Writers, step: QueueStep, q': Writers)
    requires QueueInv(q) && QueueNext(q, step, q')
    ensures QueueInv(q')
  {
    match step {
      case Arrive(w, r) => ArriveKeeps(q, w, r, q');
      case SpuriousWakeup(_) => WaitingKeeps(q, step, q');
      case Look(_) => WaitingKeeps(q, step, q');
      case Fail(w) => FailKeeps(q, w, q');
      case Build(w, n) => BuildKeeps(q, w, n, q');
      case AppendToLog(w) => AppendKeeps(q, w, q');
      case Insert(w) => InsertKeeps(q, w, q');
      case Complete(w) => CompleteKeeps(q, w, q');
    }
  }

  lemma FailKeeps(q: Writers, w: nat, q': Writers)
    requires QueueInv(q) && QueueNext(q, Fail(w), q')
    ensures QueueInv(q')
  {
    hide Fifo, Scheduled, Retire, GroupRight, Recorded, Synced;
    LeaderIs(q, w);
    RetireAt(q, 1, false, q');
    RetireKeeps(q, 1, false, q');
  }

  lemma CompleteKeeps(q: Writers, w: nat, q': Writers)
    requires QueueInv(q) && QueueNext(q, Complete(w), q')
    ensures QueueInv(q')
  {
    hide Fifo, Scheduled, Retire, GroupRight, Recorded, Synced;
    LeaderIs(q, w);
    RetireKeeps(q, Leader(q).size, true, q');
  }

  // ---------- all runs ----------

  ghost predicate IsQueueRun(run: seq<Writers>, steps: seq<QueueStep>) {
    && |run| == |steps| + 1 && run[0] == NOBODY
    && forall i :: 0 <= i < |steps| ==> QueueNext(run[i], steps[i], run[i + 1])
  }

  lemma NobodyYet()
    ensures QueueInv(NOBODY)
  {
  }

  lemma {:induction false} QueueRunsKeepInv(run: seq<Writers>, steps: seq<QueueStep>, i: nat)
    requires IsQueueRun(run, steps) && i < |run|
    ensures QueueInv(run[i])
  {
    hide QueueNext, QueueInv;
    if i == 0 {
      NobodyYet();
    } else {
      QueueRunsKeepInv(run, steps, i - 1);
      QueueStepKeepsInv(run[i - 1], steps[i - 1], run[i]);
    }
  }

  /** Only the front of the queue is ever outside the mutex, so two leaders are one. */
  lemma OnlyFrontLeads(run: seq<Writers>, steps: seq<QueueStep>, i: nat, a: nat, b: nat)
    requires IsQueueRun(run, steps) && i < |run|
    requires a in run[i].pcs && Leading(run[i].pcs[a]) && b in run[i].pcs && Leading(run[i].pcs[b])
    ensures a == b && run[i].queue != [] && run[i].queue[0] == a
  {
    hide QueueNext, Fifo, GroupRight, Recorded, Synced, IsQueueRun;
    QueueRunsKeepInv(run, steps, i);
  }

  /** The operations of the first `n` writers to arrive, leaving out those that were refused. */
  function Accepted(q: Writers, n: nat): seq<Op>
    requires n <= |q.arrived|
  {
    Done(q, q.arrived[..n])
  }

  /** The log is the accepted batches of the writers that left the queue, in the order in which they arrived,
      each once, and after them at most the group of the present leader; its records are numbered without gaps. */
  lemma LoggedOnceInOrder(run: seq<Writers>, steps: seq<QueueStep>, i: nat)
    requires IsQueueRun(run, steps) && i < |run|
    ensures var q := run[i];
            && NoRepeats(q.arrived) && q.retired <= q.arrived && Contiguous(q.log)
            && LogOps(q.log) == Accepted(q, |q.retired|) + (if Leader(q).Inserting? then Leader(q).ops else [])
  {
    hide QueueNext, IsQueueRun, Scheduled, GroupRight, Synced, LogOps, Done, NoRepeats, Contiguous;
    QueueRunsKeepInv(run, steps, i);
    var q := run[i];
    assert q.arrived[..|q.retired|] == q.retired;
  }

  /** A reader at the last sequence sees all of every finished group and nothing of the present one. */
  lemma ReadersSeeWholeGroups(run: seq<Writers>, steps: seq<QueueStep>, i: nat, e: Entry)
    requires IsQueueRun(run, steps) && i < |run|
    ensures var q := run[i];
            && q.lastSequence == |Committed(q)|
            && (e in q.mem && e.key.sequence <= q.lastSequence
                <==> exists k :: 0 <= k < |Committed(q)| && e == EntryOf(Committed(q)[k], k + 1))
  {
    hide QueueNext, IsQueueRun, Scheduled, GroupRight, Synced, LogOps, Done, Fifo, Contiguous;
    QueueRunsKeepInv(run, steps, i);
    var q := run[i];
    if e in q.mem && e.key.sequence <= q.lastSequence {
      var k :| 0 <= k < |q.mem| && q.mem[k] == e;
      assert e == EntryOf(Committed(q)[k], k + 1);
    }
    if k :| 0 <= k < |Committed(q)| && e == EntryOf(Committed(q)[k], k + 1) {
      assert q.mem[k] == e;
    }
  }

  /** Who asked for a sync and returned with success is in a record whose leader synced the log. */
  lemma SyncIsHonoured(run: seq<Writers>, steps: seq<QueueStep>, i: nat, w: nat)
    requires IsQueueRun(run, steps) && i < |run|
    requires w in run[i].pcs && run[i].pcs[w] == Returned(true)
    ensures w in run[i].requests
    ensures run[i].requests[w].sync && run[i].requests[w].batch.Some? ==>
              exists k :: 0 <= k < |run[i].log| && w in run[i].log[k].members && run[i].log[k].sync
  {
    hide QueueNext, IsQueueRun, GroupRight, Recorded, Fifo;
    QueueRunsKeepInv(run, steps, i);
    FifoAt(run[i], w);
    if run[i].requests[w].sync && run[i].requests[w].batch.Some? {
      assert InRecord(run[i], w);
    }
  }

  /** There is always a group to build. */
  ghost function GroupFrom(rs: seq<Request>, n: nat): (m: nat)
    requires 1 <= n <= |rs| && forall j :: 1 <= j < n ==> Joins(rs, j)
    ensures IsGroup(rs, m) && m <= |rs|
    decreases |rs| - n
  {
    if n < |rs| && Joins(rs, n) then GroupFrom(rs, n + 1) else n
  }

  /** The steps by which a leader gets on. */
  ghost predicate Advances(q: Writers, w: nat) {
    exists step: QueueStep, q' ::
      step.who == w && (step.Look? || step.Build? || step.AppendToLog? || step.Insert? || step.Complete?)
      && QueueNext(q, step, q')
  }

  lemma CanBuild(q: Writers, w: nat)
    requires Fifo(q) && Scheduled(q) && w in q.pcs && q.pcs[w].MakingRoom?
    ensures Advances(q, w)
  {
    hide Fifo, Scheduled, Retire, IsGroup, Requests, GroupOps;
    LeaderIs(q, w);
    var rs := Requests(q, q.queue);
    if rs[0].batch.None? {
      assert QueueNext(q, Build(w, 1), Retire(q, 1, true));
    } else {
      var n := GroupFrom(rs, 1);
      assert QueueNext(q, Build(w, n), q.(pcs := q.pcs[w := Logging(n, GroupOps(rs[..n]))]));
    }
  }

  lemma CanWrite(q: Writers, w: nat)
    requires Fifo(q) && Scheduled(q) && GroupRight(q) && w in q.pcs && Busy(q.pcs[w])
    ensures Advances(q, w)
  {
    hide Fifo, Scheduled, Retire, IsGroup, Requests, GroupOps;
    LeaderIs(q, w);
    match q.pcs[w] {
      case Logging(n, ops) =>
        assert QueueNext(q, AppendToLog(w),
                         q.(pcs := q.pcs[w := Inserting(n, ops, 0)],
                            log := q.log + [GroupRecord(q.lastSequence + 1, ops, q.requests[w].sync, q.queue[..n])]));
      case Inserting(n, ops, k) =>
        if k < |ops| {
          assert QueueNext(q, Insert(w), q.(pcs := q.pcs[w := Inserting(n, ops, k + 1)],
                                            mem := q.mem + [EntryOf(ops[k], q.lastSequence + 1 + k)]));
        } else {
          assert QueueNext(q, Complete(w), Retire(q, n, true).(lastSequence := q.lastSequence + |ops|));
        }
    }
  }

  /** No wakeup is lost: while anybody waits, the front of the queue can go on. */
  lemma FrontCanStep(run: seq<Writers>, steps: seq<QueueStep>, i: nat)
    requires IsQueueRun(run, steps) && i < |run| && run[i].queue != []
    ensures Advances(run[i], run[i].queue[0])
  {
    hide IsQueueRun, Recorded, Synced, Fifo, GroupRight, QueueNext;
    QueueRunsKeepInv(run, steps, i);
    var q := run[i];
    var w := q.queue[0];
    FifoAt(q, w);
    if q.pcs[w].MakingRoom? {
      CanBuild(q, w);
    } else if Busy(q.pcs[w]) {
      CanWrite(q, w);
    } else {
      assert q.pcs[w].Awake?;
      CanLook(q, w);
    }
  }

  lemma CanLook(q: Writers, w: nat)
    requires w in q.pcs && q.pcs[w].Awake? && w !in q.outcome && q.queue != [] && w == q.queue[0]
    ensures Advances(q, w)
  {
    assert QueueNext(q, Look(w), q.(pcs := q.pcs[w := MakingRoom]));
  }

  // ---------- completing a group ----------

  /** The loop that ends `Write`: takes writers off the queue up to the last one of the group. */
  method CompleteGroup(queue: seq<nat>, last: nat) returns (rest: seq<nat>, done: seq<nat>)
    requires last in queue
    ensures queue == done + rest && done != []
    ensures done[|done| - 1] == last && last !in done[..|done| - 1]
  {
    rest, done := queue, [];
    while true
      invariant queue == done + rest && last in rest && last !in done
      decreases |rest|
    {
      var ready := rest[0];
      rest := rest[1..];
      done := done + [ready];
      if ready == last {
        break;
      }
    }
  }

  /** With no writer twice in the queue, that is the group itself. */
  lemma GroupEndsAtLast(queue: seq<nat>, n: nat, done: seq<nat>, rest: seq<nat>)
    requires NoRepeats(queue) && 1 <= n <= |queue| && queue == done + rest && done != []
    requires done[|done| - 1] == queue[n - 1]
    ensures done == queue[..n]
  {
    assert queue[|done| - 1] == queue[n - 1];
  }
}
