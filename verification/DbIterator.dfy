/** `DBIter`: the user's view of a sorted run of internal entries at one snapshot (db/db_iter.cc). */
module DbIterator {
  import opened InternalKeys
  import opened Meaning
  import opened Files
  import opened Runs
  import opened Iterators
  import opened Merging

  // ---------- entries that the iterator yields ----------

  /** Entry `i` is visible at snapshot `s`. */
  predicate Seen(es: seq<Entry>, s: nat, i: nat)
    requires i < |es|
  {
    es[i].key.sequence <= s
  }

  /** Entry `i` decides its user key at snapshot `s`, and is a value. */
  ghost predicate Yields(es: seq<Entry>, s: nat, i: nat)
    requires i < |es|
  {
    && Seen(es, s, i) && es[i].key.kind.Value?
    && forall j :: 0 <= j < i && es[j].key.user == es[i].key.user ==> !Seen(es, s, j)
  }

  ghost predicate RunOk(es: seq<Entry>) {
    Sorted(es) && Functional(Contents(es))
  }

  /** User keys do not decrease along the run. */
  lemma UsersGrow(es: seq<Entry>, i: nat, j: nat)
    requires Sorted(es) && i <= j < |es|
    ensures es[i].key.user <= es[j].key.user
  {
    if i < j {
      assert Less(es[i].key, es[j].key);
    }
  }

  /** What is yielded is what a read finds. */
  lemma YieldedIsRead(es: seq<Entry>, s: nat, i: nat)
    requires RunOk(es) && i < |es| && Yields(es, s, i)
    ensures Read(Contents(es), es[i].key.user, s) == Some(es[i].value)
  {
    hide Functional;
    var u := es[i].key.user;
    forall x | x in es && Visible(x, u, s) ensures x.key.sequence <= es[i].key.sequence {
      var j :| 0 <= j < |es| && es[j] == x;
      assert i <= j;
      assert i < j ==> Less(es[i].key, es[j].key);
    }
    ReadNewest(Contents(es), u, s, es[i]);
  }

  /** A key that a read finds is yielded. */
  lemma ReadIsYielded(es: seq<Entry>, s: nat, u: UserKey) returns (i: nat)
    requires RunOk(es) && Read(Contents(es), u, s).Some?
    ensures i < |es| && Yields(es, s, i) && es[i].key.user == u && es[i].value == Read(Contents(es), u, s).value
  {
    hide Functional;
    var e := Newest(Contents(es), u, s);
    i :| 0 <= i < |es| && es[i] == e;
    forall j | 0 <= j < i && es[j].key.user == u ensures !Seen(es, s, j) {
      assert Less(es[j].key, es[i].key);
      if Seen(es, s, j) {
        assert Visible(es[j], u, s) && es[j] in Contents(es);
        SameSequence(es, j, i);
      }
    }
  }

  lemma SameSequence(es: seq<Entry>, j: nat, i: nat)
    requires RunOk(es) && j < i < |es| && es[j].key.user == es[i].key.user
    ensures es[j].key.sequence > es[i].key.sequence
  {
    assert Less(es[j].key, es[i].key);
    assert es[j] in Contents(es) && es[i] in Contents(es);
  }

  // ---------- scanning forward ----------

  /** Entries of user keys up to `skip` are to be passed over; without one, none are. */
  predicate Skipped(skip: Option<UserKey>, u: UserKey) {
    skip.Some? && u <= skip.value
  }

  /** Before position `q`, nothing visible shares its user key with what follows, unless it is to be skipped;
      and what is to be skipped comes first. */
  ghost predicate Clean(es: seq<Entry>, s: nat, q: nat, skip: Option<UserKey>) {
    && (forall j, i :: 0 <= j < q <= i < |es| && Seen(es, s, j) && es[j].key.user == es[i].key.user ==>
         Skipped(skip, es[i].key.user))
    && (skip.Some? ==> forall i :: q <= i < |es| && Seen(es, s, i) ==> es[i].key.user >= skip.value)
  }

  /** Between `p` and `q` all that is yielded is skipped. */
  ghost predicate PassedOver(es: seq<Entry>, s: nat, p: nat, q: nat, skip: Option<UserKey>) {
    forall i :: p <= i < q && i < |es| && Yields(es, s, i) ==> Skipped(skip, es[i].key.user)
  }

  /** The state of the forward scan, begun at `p` with `skip0`. */
  ghost predicate Scanning(es: seq<Entry>, s: nat, p: nat, skip0: Option<UserKey>, q: nat, skip: Option<UserKey>) {
    && p <= q <= |es|
    && Clean(es, s, q, skip) && PassedOver(es, s, p, q, skip0)
    && (skip0.Some? ==> skip.Some? && skip0.value <= skip.value)
    && (skip.Some? && skip != skip0 ==> exists d :: 0 <= d < q && Seen(es, s, d) && es[d].key.user == skip.value)
  }

  lemma ScanHidden(es: seq<Entry>, s: nat, p: nat, skip0: Option<UserKey>, q: nat, skip: Option<UserKey>)
    requires Sorted(es) && Scanning(es, s, p, skip0, q, skip) && q < |es|
    requires !Seen(es, s, q) || (es[q].key.kind.Value? && Skipped(skip, es[q].key.user))
    ensures Scanning(es, s, p, skip0, q + 1, skip)
  {
    hide Sorted;
    if Yields(es, s, q) {
      assert es[q].key.user == skip.value;
    }
    forall j, i | 0 <= j < q + 1 <= i < |es| && Seen(es, s, j) && es[j].key.user == es[i].key.user
      ensures Skipped(skip, es[i].key.user)
    {
    }
  }

  lemma ScanDeletion(es: seq<Entry>, s: nat, p: nat, skip0: Option<UserKey>, q: nat, skip: Option<UserKey>)
    requires Sorted(es) && Scanning(es, s, p, skip0, q, skip) && q < |es|
    requires Seen(es, s, q) && es[q].key.kind.Deletion?
    ensures Scanning(es, s, p, skip0, q + 1, Some(es[q].key.user))
  {
    hide Sorted;
    var now := Some(es[q].key.user);
    DeletionClean(es, s, q);
    hide Clean;
    assert skip0.Some? ==> skip0.value <= now.value;
  }

  lemma DeletionClean(es: seq<Entry>, s: nat, q: nat)
    requires Sorted(es) && q < |es|
    ensures Clean(es, s, q + 1, Some(es[q].key.user))
  {
    hide Sorted;
    var now := Some(es[q].key.user);
    forall j, i | 0 <= j < q + 1 <= i < |es| && Seen(es, s, j) && es[j].key.user == es[i].key.user
      ensures Skipped(now, es[i].key.user)
    {
      UsersGrow(es, j, q);
      UsersGrow(es, q, i);
    }
    forall i | q + 1 <= i < |es| && Seen(es, s, i) ensures es[i].key.user >= now.value {
      UsersGrow(es, q, i);
    }
  }

  lemma ScanFound(es: seq<Entry>, s: nat, p: nat, skip0: Option<UserKey>, q: nat, skip: Option<UserKey>)
    requires Sorted(es) && Scanning(es, s, p, skip0, q, skip) && q < |es|
    requires Seen(es, s, q) && es[q].key.kind.Value? && !Skipped(skip, es[q].key.user)
    ensures Yields(es, s, q) && !Skipped(skip0, es[q].key.user)
  {
    hide Sorted;
  }

  // ---------- scanning backward ----------

  /** A position as a number, -1 when not valid. */
  function Place(c: Cursor): int {
    if Valid(c) then c.pos else -1
  }

  /** Nothing visible strictly between `q` and `i`, and at `q` an earlier user key. */
  ghost predicate JustBefore(es: seq<Entry>, s: nat, q: int, i: nat)
    requires i < |es|
  {
    && -1 <= q < i
    && (forall j :: q < j < i && 0 <= j ==> !Seen(es, s, j))
    && (q >= 0 ==> es[q].key.user < es[i].key.user)
  }

  ghost predicate NoYield(es: seq<Entry>, s: nat, a: int, b: int) {
    forall i :: 0 <= i < |es| && a <= i < b ==> !Yields(es, s, i)
  }

  /** The state of the backward scan, begun at `q0`: the newest visible entry so far is the value at `c`, if any. */
  ghost predicate Retreating(es: seq<Entry>, s: nat, q0: int, q: int, c: Option<nat>) {
    && -1 <= q <= q0 < |es|
    && (c.Some? ==>
          && q < c.value <= q0 && Seen(es, s, c.value) && es[c.value].key.kind.Value?
          && (forall j :: q < j < c.value && 0 <= j ==> !Seen(es, s, j))
          && NoYield(es, s, c.value + 1, q0 + 1))
    && (c.None? ==> NoYield(es, s, q + 1, q0 + 1))
  }

  lemma RetreatUnseen(es: seq<Entry>, s: nat, q0: int, q: nat, c: Option<nat>)
    requires Retreating(es, s, q0, q, c) && !Seen(es, s, q)
    ensures Retreating(es, s, q0, q - 1, c)
  {
  }

  /** A visible entry that does not end the scan: it hides the candidate of the same user key. */
  lemma RetreatSeen(es: seq<Entry>, s: nat, q0: int, q: nat, c: Option<nat>)
    requires Sorted(es) && Retreating(es, s, q0, q, c) && Seen(es, s, q)
    requires c.Some? ==> es[q].key.user >= es[c.value].key.user
    ensures Retreating(es, s, q0, q - 1, if es[q].key.kind.Value? then Some(q) else None)
  {
    hide Sorted;
    if c.Some? {
      UsersGrow(es, q, c.value);
      assert !Yields(es, s, c.value);
      assert forall j :: q < j < c.value ==> !Yields(es, s, j);
    }
    assert NoYield(es, s, q + 1, q0 + 1);
  }

  lemma RetreatFound(es: seq<Entry>, s: nat, q0: int, q: int, c: nat)
    requires Sorted(es) && Retreating(es, s, q0, q, Some(c))
    requires c < |es| && (q >= 0 ==> q < |es| && es[q].key.user < es[c].key.user)
    ensures Yields(es, s, c) && JustBefore(es, s, q, c) && c <= q0 && NoYield(es, s, c + 1, q0 + 1)
  {
    hide Sorted;
    forall j | 0 <= j < c && es[j].key.user == es[c].key.user ensures !Seen(es, s, j) {
      if j <= q {
        UsersGrow(es, j, q);
      }
    }
  }

  lemma RetreatNone(es: seq<Entry>, s: nat, q0: int)
    requires Retreating(es, s, q0, -1, None)
    ensures NoYield(es, s, 0, q0 + 1)
  {
  }

  // ---------- the view ----------

  ghost function View(es: seq<Entry>, s: nat, u: UserKey): Option<Bytes> {
    Read(Contents(es), u, s)
  }

  /** If only skipped entries are yielded from `p` to `q`, no key lies between in the view. */
  lemma NothingBetween(es: seq<Entry>, s: nat, p: nat, q: nat, skip: Option<UserKey>, u: UserKey)
    requires RunOk(es) && PassedOver(es, s, p, q, skip) && p <= q <= |es| && !Skipped(skip, u)
    requires q < |es| ==> u < es[q].key.user
    requires forall i :: 0 <= i < p && i < |es| && es[i].key.user == u ==> !Yields(es, s, i)
    ensures View(es, s, u).None?
  {
    hide Functional, Sorted, Yields;
    if View(es, s, u).Some? {
      var i := ReadIsYielded(es, s, u);
      if q <= i {
        UsersGrow(es, q, i);
      }
      assert false;
    }
  }

  lemma NothingBetweenBack(es: seq<Entry>, s: nat, a: int, b: nat, u: UserKey)
    requires RunOk(es) && NoYield(es, s, a + 1, b) && -1 <= a <= b <= |es|
    requires a >= 0 ==> a < |es| && es[a].key.user < u
    requires forall i :: b <= i < |es| && es[i].key.user == u ==> !Yields(es, s, i)
    ensures View(es, s, u).None?
  {
    hide Functional, Sorted, Yields;
    if View(es, s, u).Some? {
      var i := ReadIsYielded(es, s, u);
      if i <= a {
        UsersGrow(es, i, a);
      }
      assert false;
    }
  }

  // ---------- a run that grows ----------

  /** Entries behind the snapshot do not change what is shown. */
  lemma GrewView(es: seq<Entry>, now: seq<Entry>, s: nat)
    requires RunOk(es) && RunOk(now) && GrewRun(es, now, s)
    ensures forall u :: View(now, s, u) == View(es, s, u)
  {
    hide Sorted, Functional;
    forall u ensures View(now, s, u) == View(es, s, u) {
      ReadAgrees(Contents(now), Contents(es), u, s);
    }
  }

  /** Entries have the same order in both runs. */
  lemma KeepsOrder(es: seq<Entry>, now: seq<Entry>, x: nat, i: nat, j: nat, k: nat)
    requires Sorted(es) && Sorted(now) && x < |es| && i < |es| && j < |now| && k < |now|
    requires es[x] == now[j] && es[i] == now[k]
    ensures x < i <==> j < k
    ensures x == i <==> j == k
  {
    hide Sorted;
    Increasing(es, x, i);
    Increasing(now, j, k);
    LessTotal(es[x].key, es[i].key);
    LessTotal(es[x].key, es[x].key);
  }

  /** The entry that decides its key still does. */
  lemma GrewYields(es: seq<Entry>, now: seq<Entry>, s: nat, i: nat) returns (k: nat)
    requires Sorted(es) && Sorted(now) && GrewRun(es, now, s) && i < |es| && Yields(es, s, i)
    ensures k < |now| && now[k] == es[i] && Yields(now, s, k)
  {
    hide Sorted;
    assert es[i] in now;
    k :| 0 <= k < |now| && now[k] == es[i];
    forall j | 0 <= j < k && now[j].key.user == now[k].key.user ensures !Seen(now, s, j) {
      if Seen(now, s, j) {
        var x :| 0 <= x < |es| && es[x] == now[j];
        KeepsOrder(es, now, x, i, j, k);
      }
    }
  }

  lemma GrewBefore(es: seq<Entry>, now: seq<Entry>, s: nat, q: int, i: nat, p: int, k: nat)
    requires Sorted(es) && Sorted(now) && GrewRun(es, now, s) && i < |es| && k < |now| && now[k] == es[i]
    requires JustBefore(es, s, q, i) && (if q < 0 then p == -1 else 0 <= p < |now| && now[p] == es[q])
    ensures JustBefore(now, s, p, k)
  {
    hide Sorted;
    if q >= 0 {
      KeepsOrder(es, now, q, i, p, k);
    }
    forall j | p < j < k && 0 <= j ensures !Seen(now, s, j) {
      if now[j] in es {
        var x :| 0 <= x < |es| && es[x] == now[j];
        KeepsOrder(es, now, x, i, j, k);
        if q >= 0 {
          KeepsOrder(es, now, q, x, p, j);
        }
        assert !Seen(es, s, x);
      }
    }
  }

  /** The entries of all runs. */
  ghost function Members(rs: seq<seq<Entry>>): set<Entry> {
    set i, e | 0 <= i < |rs| && e in rs[i] :: e
  }

  /** What the merging iterator walks over is all right as long as its children are. */
  lemma MergedOk(m: MergingIterator)
    requires m.Ok() && Functional(Members(RunsOf(m.children)))
    ensures RunOk(m.merged) && m.at <= |m.merged|
  {
    hide Sorted, Functional, DisjointKeys;
    m.ValidIs();
    forall e | e in Contents(m.merged) ensures e in Members(RunsOf(m.children)) {
      var i :| 0 <= i < |m.seen| && e in m.seen[i].run;
      assert TakenFor(m.children[i], m.seen[i], m.bound);
      assert e in RunsOf(m.children)[i];
    }
    FunctionalSubset(Contents(m.merged), Members(RunsOf(m.children)));
  }

  class DBIter {
    const sequence: nat
    /** The internal iterator.  Writes go on inserting into the memtable under it, above the iterator's sequence. */
    const source: MergingIterator
    var forward: bool
    var valid: bool
    var savedKey: Option<UserKey>
    var savedValue: Bytes
    /** What the internal iterator stands for, and the entry this iterator stands on. */
    ghost var iter: Cursor
    ghost var at: Option<nat>

    ghost predicate Sound()
      reads this`iter, source
    {
      && source.Ok() && iter == source.Whole() && source.bound == sequence
      && Functional(Members(RunsOf(source.children)))
      && RunOk(iter.run) && iter.pos <= |iter.run|
    }

    ghost predicate Ok()
      reads this, source
    {
      && Sound()
      && valid == at.Some?
      && (valid ==>
            && at.value < |iter.run| && Yields(iter.run, sequence, at.value)
            && (if forward then iter.pos == at.value && source.forward
                else
                  && savedKey == Some(iter.run[at.value].key.user)
                  && savedValue == iter.run[at.value].value
                  && JustBefore(iter.run, sequence, Place(iter), at.value)
                  && (Valid(iter) ==> !source.forward)))
    }

    ghost function CurrentKey(): UserKey
      requires Ok() && valid
      reads this, source
    {
      if forward then iter.run[iter.pos].key.user else savedKey.value
    }

    ghost function CurrentValue(): Bytes
      requires Ok() && valid
      reads this, source
    {
      if forward then iter.run[iter.pos].value else savedValue
    }

    /** What a read at the iterator's snapshot finds for a user key. */
    ghost function Shown(u: UserKey): Option<Bytes>
      reads this
    {
      View(iter.run, sequence, u)
    }

    constructor (runs: seq<seq<Entry>>, s: nat)
      requires DisjointRuns(runs) && (forall i :: 0 <= i < |runs| ==> Sorted(runs[i])) && Functional(Members(runs))
      ensures Ok() && !valid && iter.run == MergeAll(runs) && sequence == s && RunsOf(source.children) == runs
      ensures fresh(source)
    {
      hide Sorted, Functional, DisjointRuns, MergeAll, RunOk;
      var m := new MergingIterator(runs, s);
      sequence, source, forward, valid := s, m, true, false;
      savedKey, savedValue, at := None, [], None;
      iter := Cursor(MergeAll(runs), |MergeAll(runs)|);
      new;
      MergedOk(source);
    }

    /** The key and value, from where they are kept in either direction. */
    method Read() returns (key: UserKey, value: Bytes)
      requires Ok() && valid
      ensures key == CurrentKey() && value == CurrentValue()
    {
      hide RunOk, Yields, JustBefore;
      if forward {
        var e := source.Read();
        key, value := e.value.key.user, e.value.value;
      } else {
        key, value := savedKey.value, savedValue;
      }
    }

    /** A write inserts an entry into a child, the memtable, wherever it belongs.  The writer's sequence number is above
        that of the iterator, which therefore shows the same keys and values, and stands on the same key. */
    method Grow(c: nat, n: nat, e: Entry)
      requires Ok() && c < |source.children| && n <= |source.children[c].run| && e.key.sequence > sequence
      requires Sorted(source.children[c].run[..n] + [e] + source.children[c].run[n..])
      requires Functional(Members(RunsOf(source.children)) + {e})
      requires forall i, x :: 0 <= i < |source.children| && x in source.children[i].run ==> x.key != e.key
      modifies this`iter, this`at, source`children, source`seen, source`merged, source`at
      ensures Ok() && valid == old(valid)
      ensures RunsOf(source.children)
           == old(RunsOf(source.children)[c := source.children[c].run[..n] + [e] + source.children[c].run[n..]])
      ensures valid ==> CurrentKey() == old(CurrentKey()) && CurrentValue() == old(CurrentValue())
      ensures forall u :: Shown(u) == old(Shown(u))
    {
      hide RunOk, Sorted, Functional, JustBefore, Yields, GrewRun, Members;
      ghost var was, rs := iter, RunsOf(source.children);
      source.Grow(c, n, e);
      MoreMembers(rs, c, n, e);
      assert Functional(Members(RunsOf(source.children)));
      MergedOk(source);
      RunSorted(was.run);
      RunSorted(source.merged);
      GrewView(was.run, source.merged, sequence);
      if valid {
        ghost var k := GrewYields(was.run, source.merged, sequence, at.value);
        if forward {
          KeepsOrder(was.run, source.merged, at.value, at.value, k, source.at);
        } else {
          GrewBefore(was.run, source.merged, sequence, Place(was), at.value, Place(source.Whole()), k);
        }
        at := Some(k);
      }
      iter := source.Whole();
    }

    /** The key and value are an entry of the view. */
    lemma CurrentIsShown()
      requires Ok() && valid
      ensures CurrentKey() == iter.run[at.value].key.user && Shown(CurrentKey()) == Some(CurrentValue())
    {
      hide RunOk, Yields;
      YieldedIsRead(iter.run, sequence, at.value);
    }

    /** The entry under the internal iterator. */
    method Peek() returns (r: Option<Entry>)
      requires Sound()
      ensures r == if Valid(iter) then Some(iter.run[iter.pos]) else None
    {
      hide RunOk, Functional;
      r := source.Read();
    }

    /** One step in the direction the internal iterator is going. */
    method StepForth()
      requires Sound() && Valid(iter) && source.forward
      modifies this`iter, source
      ensures Sound() && source.forward && iter == Forth(old(iter))
      ensures RunsOf(source.children) == old(RunsOf(source.children))
    {
      hide RunOk, Functional, Members;
      source.ValidIs();
      ghost var from := source.Next();
      iter := source.Whole();
    }

    method StepBack()
      requires Sound() && Valid(iter) && !source.forward
      modifies this`iter, source
      ensures Sound() && !source.forward && iter == Back(old(iter))
      ensures RunsOf(source.children) == old(RunsOf(source.children))
    {
      hide RunOk, Functional, Members;
      source.ValidIs();
      ghost var from := source.Prev();
      iter := source.Whole();
    }

    lemma SoundRun()
      requires Sound()
      ensures RunOk(iter.run) && iter.pos <= |iter.run|
    {
      hide RunOk;
    }

    method FindNextUserEntry(skip0: Option<UserKey>)
      requires Sound() && Valid(iter) && source.forward && forward && Clean(iter.run, sequence, iter.pos, skip0)
      modifies this, source
      ensures Ok() && forward && iter.run == old(iter.run) && RunsOf(source.children) == old(RunsOf(source.children))
      ensures valid ==> old(iter.pos) <= iter.pos && !Skipped(skip0, iter.run[iter.pos].key.user)
      ensures PassedOver(iter.run, sequence, old(iter.pos), iter.pos, skip0)
      ensures !valid ==> iter.pos == |iter.run|
    {
      hide Clean, PassedOver, RunOk, Sorted, Yields, DBIter.Sound, RunsOf;
      SoundRun();
      RunSorted(iter.run);
      var skip := skip0;
      ghost var es, p, rs := iter.run, iter.pos, RunsOf(source.children);
      StartScan(es, sequence, p, skip0);
      while true
        invariant Sound() && iter.run == es && Valid(iter) && forward && source.forward
        invariant Scanning(es, sequence, p, skip0, iter.pos, skip) && RunsOf(source.children) == rs
        decreases |es| - iter.pos
      {
        var r := Peek();
        var e := r.value;
        if e.key.sequence <= sequence {
          if e.key.kind.Deletion? {
            ScanDeletion(es, sequence, p, skip0, iter.pos, skip);
            skip := Some(e.key.user);
          } else if skip.Some? && e.key.user <= skip.value {
            ScanHidden(es, sequence, p, skip0, iter.pos, skip);
          } else {
            ScanFound(es, sequence, p, skip0, iter.pos, skip);
            valid, savedKey, at := true, None, Some(iter.pos);
            return;
          }
        } else {
          ScanHidden(es, sequence, p, skip0, iter.pos, skip);
        }
        StepForth();
        r := Peek();
        if r.None? {
          break;
        }
      }
      savedKey, valid, at := None, false, None;
    }

    method FindPrevUserEntry()
      requires Sound() && !forward && (Valid(iter) ==> !source.forward)
      modifies this, source
      ensures Ok() && iter.run == old(iter.run) && RunsOf(source.children) == old(RunsOf(source.children))
      ensures valid ==>
                !forward && at.value <= old(Place(iter))
                && NoYield(iter.run, sequence, at.value + 1, old(Place(iter)) + 1)
      ensures !valid ==> NoYield(iter.run, sequence, 0, old(Place(iter)) + 1)
    {
      hide NoYield, RunOk, Sorted, Yields, DBIter.Sound, JustBefore, RunsOf, Retreating;
      SoundRun();
      RunSorted(iter.run);
      ghost var es, q0 := iter.run, Place(iter);
      var deletion;
      ghost var c;
      deletion, c := RetreatAll();
      SoundRun();
      if deletion {
        RetreatNone(es, sequence, q0);
        valid, savedKey, savedValue, forward, at := false, None, [], true, None;
      } else {
        RetreatFound(es, sequence, q0, Place(iter), c.value);
        valid, at := true, c;
      }
    }

    /** The entry saved is the candidate `c`. */
    ghost predicate Saves(es: seq<Entry>, c: Option<nat>)
      reads this`savedKey, this`savedValue
    {
      c.Some? ==> c.value < |es| && savedKey == Some(es[c.value].key.user) && savedValue == es[c.value].value
    }

    /** Goes back until an entry of an earlier user key than the one saved, or to the front. */
    method RetreatAll() returns (deletion: bool, ghost c: Option<nat>)
      requires Sound() && !forward && (Valid(iter) ==> !source.forward)
      modifies this`savedKey, this`savedValue, this`iter, source
      ensures Sound() && iter.run == old(iter.run) && RunsOf(source.children) == old(RunsOf(source.children))
      ensures Retreating(iter.run, sequence, old(Place(iter)), Place(iter), c) && Saves(iter.run, c)
      ensures deletion <==> c.None?
      ensures deletion ==> !Valid(iter)
      ensures c.Some? && Valid(iter) ==> iter.run[iter.pos].key.user < iter.run[c.value].key.user
      ensures Valid(iter) ==> !source.forward
    {
      hide RunOk, Sorted, DBIter.Sound, RunsOf, Retreating;
      SoundRun();
      RunSorted(iter.run);
      deletion, c := true, None;
      ghost var es, q0 := iter.run, Place(iter);
      StartRetreat(es, sequence, q0);
      var r := Peek();
      if r.Some? {
        while true
          invariant Sound() && iter.run == es && Valid(iter) && r == Some(es[iter.pos]) && deletion == c.None?
          invariant Retreating(es, sequence, q0, iter.pos, c) && Saves(es, c) && !source.forward
          invariant RunsOf(source.children) == old(RunsOf(source.children))
          decreases iter.pos
        {
          var e := r.value;
          if e.key.sequence <= sequence {
            if !deletion && e.key.user < savedKey.value {
              break;
            }
            RetreatSeen(es, sequence, q0, iter.pos, c);
            deletion := e.key.kind.Deletion?;
            if deletion {
              savedKey, savedValue := None, [];
              c := None;
            } else {
              savedKey, savedValue := Some(e.key.user), e.value;
              c := Some(iter.pos);
            }
          } else {
            RetreatUnseen(es, sequence, q0, iter.pos, c);
          }
          StepBack();
          r := Peek();
          if r.None? {
            break;
          }
        }
      }
    }

    /** To the next key of the view. */
    method Next()
      requires Ok() && valid
      modifies this, source
      ensures Ok() && RunsOf(source.children) == old(RunsOf(source.children)) && forall u :: Shown(u) == old(Shown(u))
      ensures valid ==> old(CurrentKey()) < CurrentKey() && Shown(CurrentKey()) == Some(CurrentValue())
      ensures forall u :: old(CurrentKey()) < u && (valid ==> u < CurrentKey()) ==> Shown(u).None?
    {
      hide RunOk, Yields, Clean, PassedOver, MergingIterator.Ok, GrewRun, Functional, Members, RunsOf, JustBefore, View;
      ghost var k := CurrentKey();
      CurrentIsShown();
      source.ValidIs();
      if !forward {
        forward := true;
        TurnForward();
      } else {
        ForwardClean(iter.run, sequence, at.value);
        var e := source.Read();
        savedKey := Some(e.value.key.user);
      }
      ghost var es, i, p := iter.run, at.value, iter.pos;
      assert forall u :: View(es, sequence, u) == old(Shown(u));
      FindNextUserEntry(savedKey);
      assert iter.run == es;
      forall u | k < u && (valid ==> u < CurrentKey()) ensures Shown(u).None? {
        LaterUsers(es, p, i, u);
        NothingBetween(es, sequence, p, iter.pos, Some(k), u);
      }
      if valid {
        CurrentIsShown();
      }
    }

    /** From just before the entries of the current key to the first of them. */
    method TurnForward()
      requires Sound() && forward && at.Some? && at.value < |iter.run| && Yields(iter.run, sequence, at.value)
      requires savedKey == Some(iter.run[at.value].key.user) && JustBefore(iter.run, sequence, Place(iter), at.value)
      requires Valid(iter) ==> !source.forward
      modifies this`iter, this`at, source
      ensures Sound() && source.forward && Valid(iter) && at.Some? && iter.pos <= at.value < |iter.run|
      ensures iter.run[at.value].key.user == savedKey.value && Yields(iter.run, sequence, at.value)
      ensures Clean(iter.run, sequence, iter.pos, savedKey) && RunsOf(source.children) == old(RunsOf(source.children))
      ensures forall u :: View(iter.run, sequence, u) == View(old(iter.run), sequence, u)
    {
      hide RunOk, Yields, Clean, MergingIterator.Ok, GrewRun, JustBefore, Functional, Members;
      ghost var was, i := iter, at.value;
      source.ValidIs();
      ghost var from;
      if !source.IsValid() {
        source.SeekToFirst();
        from := source.Whole();
      } else {
        from := source.Next();
      }
      MergedOk(source);
      RunSorted(was.run);
      RunSorted(from.run);
      GrewView(was.run, from.run, sequence);
      ghost var k := GrewYields(was.run, from.run, sequence, i);
      GrewBefore(was.run, from.run, sequence, Place(was), i, if Valid(was) then from.pos else -1, k);
      ResumeClean(from.run, sequence, if Valid(was) then from.pos else -1, k);
      iter, at := source.Whole(), Some(k);
      assert iter.pos <= k by { BeforeIt(from.run, sequence, if Valid(was) then from.pos else -1, k); }
    }

    /** To the previous key of the view. */
    method Prev()
      requires Ok() && valid
      modifies this, source
      ensures Ok() && RunsOf(source.children) == old(RunsOf(source.children)) && forall u :: Shown(u) == old(Shown(u))
      ensures valid ==> CurrentKey() < old(CurrentKey()) && Shown(CurrentKey()) == Some(CurrentValue())
      ensures forall u :: u < old(CurrentKey()) && (valid ==> CurrentKey() < u) ==> Shown(u).None?
    {
      hide RunOk, Yields, NoYield, MergingIterator.Ok, GrewRun, Functional, Members;
      ghost var k := CurrentKey();
      CurrentIsShown();
      var stop := false;
      ghost var i := at.value;
      if forward {
        stop, i := LeaveKey();
      }
      ghost var es, q := iter.run, Place(iter);
      BetweenUnyielded(es, sequence, q, i);
      if stop {
        NoYieldNowhere(es, sequence);
      } else {
        FindPrevUserEntry();
      }
      ghost var low := if valid then at.value else -1;
      forall u | u < k && (valid ==> es[at.value].key.user < u) ensures Shown(u).None? {
        EarlierUsers(es, sequence, low, q, i, u);
        NothingBetweenBack(es, sequence, low, q + 1, u);
      }
      if valid {
        UsersBelow(es, sequence, low, q, i);
        CurrentIsShown();
      }
    }

    /** Steps back over the entries of the current key.  There may be nothing before them. */
    method LeaveKey() returns (stop: bool, ghost i: nat)
      requires Ok() && valid && forward
      modifies this, source
      ensures Sound() && RunsOf(source.children) == old(RunsOf(source.children))
      ensures forall u :: View(iter.run, sequence, u) == View(old(iter.run), sequence, u)
      ensures i < |iter.run| && iter.run[i].key.user == old(CurrentKey())
      ensures JustBefore(iter.run, sequence, Place(iter), i)
      ensures stop ==> Ok() && !valid && Place(iter) == -1
      ensures !stop ==> !forward && at == Some(i) && (Valid(iter) ==> !source.forward)
    {
      hide RunOk, Functional, DBIter.Sound, RunsOf, View;
      OkSound();
      var first := Peek();
      savedKey := Some(first.value.key.user);
      i := TurnBack();
      at := Some(i);
      var r := Peek();
      ghost var es := iter.run;
      SoundRun();
      while r.Some? && !(r.value.key.user < savedKey.value)
        invariant Sound() && iter.run == es && !source.forward && forward && at == Some(i) && i < |es|
        invariant r == if Valid(iter) then Some(es[iter.pos]) else None
        invariant savedKey == Some(es[i].key.user) && Yields(es, sequence, i) && Place(iter) < i
        invariant forall j :: Place(iter) < j < i && 0 <= j ==> !Seen(es, sequence, j)
        invariant RunsOf(source.children) == old(RunsOf(source.children))
        decreases Place(iter)
      {
        SameUser(es, iter.pos, i);
        StepBack();
        r := Peek();
      }
      if r.None? {
        valid, savedKey, savedValue, at := false, None, [], None;
        SoundRun();
        return true, i;
      }
      forward := false;
      stop := false;
    }

    lemma OkSound()
      requires Ok()
      ensures Sound()
    {
    }

    /** The step back from the current entry, with which the internal iterator turns. */
    method TurnBack() returns (ghost i: nat)
      requires Ok() && valid && forward
      modifies this`iter, source
      ensures Sound() && RunsOf(source.children) == old(RunsOf(source.children)) && !source.forward
      ensures i < |iter.run| && iter.run[i] == old(iter.run[iter.pos]) && Yields(iter.run, sequence, i)
      ensures iter == Back(Cursor(iter.run, i))
      ensures forall u :: View(iter.run, sequence, u) == View(old(iter.run), sequence, u)
    {
      hide RunOk, Yields, GrewRun, Functional, Members, JustBefore;
      ghost var was := iter;
      source.ValidIs();
      ghost var from := source.Prev();
      MergedOk(source);
      RunSorted(was.run);
      RunSorted(from.run);
      GrewView(was.run, from.run, sequence);
      i := GrewYields(was.run, from.run, sequence, was.pos);
      KeepsOrder(was.run, from.run, was.pos, was.pos, i, from.pos);
      iter := source.Whole();
    }

    method SeekTo(target: UserKey)
      requires Ok()
      modifies this, source
      ensures Ok() && RunsOf(source.children) == old(RunsOf(source.children)) && forall u :: Shown(u) == old(Shown(u))
      ensures valid ==> target <= CurrentKey() && Shown(CurrentKey()) == Some(CurrentValue())
      ensures forall u :: target <= u && (valid ==> u < CurrentKey()) ==> Shown(u).None?
    {
      hide RunOk, Yields, Clean, PassedOver, Seek, MergingIterator.Ok, GrewRun, Functional, Members;
      ghost var was := iter.run;
      forward, savedValue, savedKey := true, [], None;
      source.SeekTo(LookupKey(target, sequence));
      MergedOk(source);
      GrewView(was, source.merged, sequence);
      iter := source.Whole();
      ghost var es, p := iter.run, iter.pos;
      SeekClean(es, sequence, target);
      source.ValidIs();
      if source.IsValid() {
        FindNextUserEntry(None);
      } else {
        valid, at := false, None;
        NonePassed(es, sequence, p);
      }
      forall u | target <= u && (valid ==> u < CurrentKey()) ensures Shown(u).None? {
        NothingBetween(es, sequence, p, iter.pos, None, u);
      }
      if valid {
        SeekAbove(es, sequence, target, iter.pos);
        CurrentIsShown();
      }
    }

    method SeekToFirst()
      requires Ok()
      modifies this, source
      ensures Ok() && RunsOf(source.children) == old(RunsOf(source.children)) && forall u :: Shown(u) == old(Shown(u))
      ensures valid ==> Shown(CurrentKey()) == Some(CurrentValue())
      ensures forall u :: (valid ==> u < CurrentKey()) ==> Shown(u).None?
    {
      hide RunOk, Yields, Clean, PassedOver, MergingIterator.Ok, GrewRun, Functional, Members;
      ghost var was := iter.run;
      forward, savedValue := true, [];
      source.SeekToFirst();
      MergedOk(source);
      GrewView(was, source.merged, sequence);
      iter := source.Whole();
      ghost var es := iter.run;
      StartClean(es, sequence);
      source.ValidIs();
      if source.IsValid() {
        FindNextUserEntry(None);
      } else {
        valid, at := false, None;
        NonePassed(es, sequence, 0);
      }
      forall u | valid ==> u < CurrentKey() ensures Shown(u).None? {
        NothingBetween(es, sequence, 0, iter.pos, None, u);
      }
      if valid {
        CurrentIsShown();
      }
    }

    method SeekToLast()
      requires Ok()
      modifies this, source
      ensures Ok() && RunsOf(source.children) == old(RunsOf(source.children)) && forall u :: Shown(u) == old(Shown(u))
      ensures valid ==> Shown(CurrentKey()) == Some(CurrentValue())
      ensures forall u :: (valid ==> CurrentKey() < u) ==> Shown(u).None?
    {
      hide RunOk, Yields, NoYield, MergingIterator.Ok, GrewRun, Functional, Members;
      ghost var was := iter.run;
      forward, savedValue := false, [];
      source.SeekToLast();
      MergedOk(source);
      GrewView(was, source.merged, sequence);
      iter := source.Whole();
      ghost var es := iter.run;
      source.ValidIs();
      assert Place(iter) == |es| - 1;
      FindPrevUserEntry();
      ghost var low := if valid then at.value else -1;
      forall u | valid ==> es[at.value].key.user < u ensures Shown(u).None? {
        NothingBetweenBack(es, sequence, low, |es|, u);
      }
      if valid {
        CurrentIsShown();
      }
    }
  }

  lemma RunSorted(es: seq<Entry>)
    requires RunOk(es)
    ensures Sorted(es)
  {
  }

  lemma BeforeIt(es: seq<Entry>, s: nat, q: int, i: nat)
    requires i < |es| && JustBefore(es, s, q, i)
    ensures q < i
  {
  }

  lemma MoreMembers(rs: seq<seq<Entry>>, c: nat, n: nat, e: Entry)
    requires c < |rs| && n <= |rs[c]|
    ensures Members(rs[c := rs[c][..n] + [e] + rs[c][n..]]) == Members(rs) + {e}
  {
    var now := rs[c := rs[c][..n] + [e] + rs[c][n..]];
    InsertedMembers(rs[c], n, e);
    forall x ensures x in Members(now) <==> x in Members(rs) + {e} {
      if i :| 0 <= i < |now| && x in now[i] {
        assert i != c ==> x in rs[i];
      }
      if i :| 0 <= i < |rs| && x in rs[i] {
        assert x in now[i];
      }
      assert x == e ==> x in now[c];
    }
  }

  /** Stepping forward into the entries of the current key from just before them. */
  lemma ResumeClean(es: seq<Entry>, s: nat, q: int, i: nat)
    requires RunOk(es) && i < |es| && JustBefore(es, s, q, i)
    ensures Clean(es, s, q + 1, Some(es[i].key.user))
  {
    hide Functional, Sorted;
    var u := es[i].key.user;
    forall j, x | 0 <= j < q + 1 <= x < |es| && Seen(es, s, j) && es[j].key.user == es[x].key.user
      ensures es[x].key.user <= u
    {
      UsersGrow(es, j, q);
    }
    forall x | q + 1 <= x < |es| && Seen(es, s, x) ensures es[x].key.user >= u {
      UsersGrow(es, i, x);
    }
  }

  lemma ForwardClean(es: seq<Entry>, s: nat, i: nat)
    requires RunOk(es) && i < |es|
    ensures Clean(es, s, i, Some(es[i].key.user))
  {
    hide Functional, Sorted;
    var u := es[i].key.user;
    forall j, x | 0 <= j < i <= x < |es| && Seen(es, s, j) && es[j].key.user == es[x].key.user
      ensures es[x].key.user <= u
    {
      UsersGrow(es, j, i);
    }
    forall x | i <= x < |es| && Seen(es, s, x) ensures es[x].key.user >= u {
      UsersGrow(es, i, x);
    }
  }

  lemma StartClean(es: seq<Entry>, s: nat)
    ensures Clean(es, s, 0, None)
  {
  }

  lemma NonePassed(es: seq<Entry>, s: nat, p: nat)
    ensures PassedOver(es, s, p, p, None)
  {
  }

  lemma SeekClean(es: seq<Entry>, s: nat, target: UserKey)
    requires RunOk(es)
    ensures var p := Seek(es, LookupKey(target, s));
            && Clean(es, s, p, None)
            && forall i :: 0 <= i < p && es[i].key.user >= target ==> !Yields(es, s, i)
  {
    hide Functional, Seek;
    var k := LookupKey(target, s);
    var p := Seek(es, k);
    forall j | 0 <= j < p ensures es[j].key.user < target || !Seen(es, s, j) {
      assert Less(es[j].key, k);
    }
    forall i | p <= i < |es| ensures es[i].key.user >= target {
      assert p < i ==> Less(es[p].key, es[i].key);
    }
  }

  lemma SeekAbove(es: seq<Entry>, s: nat, target: UserKey, i: nat)
    requires RunOk(es) && Seek(es, LookupKey(target, s)) <= i < |es|
    ensures es[i].key.user >= target
  {
    hide Functional, Seek;
    var p := Seek(es, LookupKey(target, s));
    assert p < i ==> Less(es[p].key, es[i].key);
  }

  /** User keys above that of `i` are not found before `p`. */
  lemma LaterUsers(es: seq<Entry>, p: nat, i: nat, u: UserKey)
    requires RunOk(es) && p <= i < |es| && es[i].key.user < u
    ensures forall x :: 0 <= x < p ==> es[x].key.user < u
  {
    hide Functional, Sorted;
    forall x | 0 <= x < p ensures es[x].key.user < u {
      UsersGrow(es, x, i);
    }
  }

  lemma NoYieldNowhere(es: seq<Entry>, s: nat)
    ensures NoYield(es, s, 0, 0)
  {
  }

  lemma BetweenUnyielded(es: seq<Entry>, s: nat, q: int, i: nat)
    requires i < |es| && JustBefore(es, s, q, i)
    ensures NoYield(es, s, q + 1, i)
  {
  }

  /** User keys below that of `i` are not found after the place just before it. */
  lemma EarlierUsers(es: seq<Entry>, s: nat, low: int, q: int, i: nat, u: UserKey)
    requires RunOk(es) && i < |es| && -1 <= low <= q < i && u < es[i].key.user && NoYield(es, s, q + 1, i)
    ensures forall x :: q + 1 <= x < |es| && es[x].key.user == u ==> !Yields(es, s, x)
  {
    hide Functional, Sorted;
    forall x: nat | q + 1 <= x < |es| && es[x].key.user == u ensures !Yields(es, s, x) {
      if i <= x {
        UsersGrow(es, i, x);
      }
    }
  }

  lemma UsersBelow(es: seq<Entry>, s: nat, low: int, q: int, i: nat)
    requires RunOk(es) && i < |es| && 0 <= low <= q && JustBefore(es, s, q, i)
    ensures es[low].key.user < es[i].key.user
  {
    hide Functional, Sorted;
    UsersGrow(es, low, q);
  }

  lemma SameUser(es: seq<Entry>, j: nat, i: nat)
    requires RunOk(es) && j < i < |es| && !(es[j].key.user < es[i].key.user)
    ensures es[j].key.user == es[i].key.user
  {
    hide Functional, Sorted;
    UsersGrow(es, j, i);
  }

  lemma StartScan(es: seq<Entry>, s: nat, p: nat, skip: Option<UserKey>)
    requires p <= |es| && Clean(es, s, p, skip)
    ensures Scanning(es, s, p, skip, p, skip)
  {
    hide Clean;
  }

  lemma StartRetreat(es: seq<Entry>, s: nat, q: int)
    requires -1 <= q < |es|
    ensures Retreating(es, s, q, q, None)
  {
  }
}
