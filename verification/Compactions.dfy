/** The compaction loop, the base-level scan and the cut rules (db/db_impl.cc DoCompactionWork, db/version_set.cc
    IsBaseLevelForKey, ShouldStopBefore). */
module Compactions {
  import opened InternalKeys
  import opened Meaning
  import opened Files
  import opened Versions
  import opened Runs
  import opened StopRules

  /** No file of a level below the output level has a range containing `u`. */
  ghost predicate IsBase(v: Version, level: nat, u: UserKey) {
    forall l, f :: level + 2 <= l && InLevel(v, l, f) ==> !(f.smallest.user <= u <= f.largest.user)
  }

  ghost function BaseKeys(v: Version, level: nat): iset<UserKey> {
    iset u | IsBase(v, level, u)
  }

  /** A running compaction: per level, how far the base-level scan has come; and which grandparents, files two levels
      below the inputs, the output being written has passed. */
  class Compaction {
    const level: nat
    const inputVersion: Version
    const grandparents: seq<FileMeta>
    var levelPtrs: seq<nat>
    var grandparentIndex: nat
    var seenKey: bool
    var overlappedBytes: nat
    ghost var asked: Option<UserKey>
    /** The last key asked for, and the first grandparent whose bytes count. */
    ghost var stoppedAt: Option<InternalKey>
    ghost var countedFrom: nat

    ghost predicate Valid()
      reads this
    {
      && VersionOk(inputVersion)
      && |levelPtrs| == NUM_LEVELS
      && (forall l :: 0 <= l < NUM_LEVELS ==> Passed(l, levelPtrs[l], asked))
      && Counted() && (seenKey <==> stoppedAt.Some?)
    }

    /** The grandparents passed so far end before the last key asked for. */
    ghost predicate Counted()
      reads this`grandparentIndex, this`seenKey, this`overlappedBytes, this`stoppedAt, this`countedFrom
    {
      && countedFrom <= grandparentIndex <= |grandparents|
      && overlappedBytes == TotalFileSize(grandparents[countedFrom..grandparentIndex])
      && (!seenKey ==> overlappedBytes == 0)
      && (forall i :: 0 <= i < grandparentIndex ==> stoppedAt.Some? && Less(grandparents[i].largest, stoppedAt.value))
    }

    /** The first `n` files of level `l` end before the last key asked for. */
    ghost predicate Passed(l: nat, n: nat, a: Option<UserKey>)
      requires VersionOk(inputVersion) && l < NUM_LEVELS
    {
      n <= |inputVersion[l]| && forall k :: 0 <= k < n ==> a.Some? && inputVersion[l][k].largest.user < a.value
    }

    constructor (level: nat, v: Version, files: seq<FileMeta>)
      requires VersionOk(v) && level + 1 < NUM_LEVELS
      ensures Valid() && this.level == level && inputVersion == v && grandparents == files && asked == None
      ensures stoppedAt == None
    {
      this.level, inputVersion, grandparents := level, v, files;
      levelPtrs := seq(NUM_LEVELS, _ => 0);
      grandparentIndex, seenKey, overlappedBytes, countedFrom := 0, false, 0, 0;
      asked, stoppedAt := None, None;
    }

    /** The grandparents that end before `k` are passed; the bytes of those passed since the last stop count, but not of
        those in front of the first key. */
    method ShouldStopBefore(k: InternalKey, maxOverlap: nat) returns (stop: bool)
      requires Valid() && (stoppedAt.Some? ==> Less(stoppedAt.value, k))
      modifies this`grandparentIndex, this`seenKey, this`overlappedBytes, this`countedFrom, this`stoppedAt
      ensures Valid() && old(grandparentIndex) <= grandparentIndex && stoppedAt == Some(k)
      ensures grandparentIndex == EndBefore(grandparents, k)
      ensures var from := if old(stoppedAt).Some? then old(countedFrom) else grandparentIndex;
              && (stop <==> TotalFileSize(grandparents[from..grandparentIndex]) > maxOverlap)
              && countedFrom == if stop then grandparentIndex else from
    {
      hide VersionOk, Compaction.Passed, Less, TotalFileSize, EndBefore;
      NothingCounted();
      PassedStay(k);
      stoppedAt := Some(k);
      if !seenKey {
        countedFrom := grandparentIndex;
      }
      while grandparentIndex < |grandparents| && Less(grandparents[grandparentIndex].largest, k)
        invariant seenKey == old(seenKey) && Counted() && old(grandparentIndex) <= grandparentIndex
        invariant stoppedAt == Some(k)
        invariant countedFrom == if seenKey then old(countedFrom) else grandparentIndex
        decreases |grandparents| - grandparentIndex
      {
        if seenKey {
          overlappedBytes := overlappedBytes + grandparents[grandparentIndex].size;
        }
        OneMore(countedFrom, grandparentIndex);
        grandparentIndex := grandparentIndex + 1;
        if !seenKey {
          countedFrom := grandparentIndex;
        }
      }
      seenKey := true;
      EndBeforeIs(grandparents, k, grandparentIndex);
      stop := overlappedBytes > maxOverlap;
      if stop {
        overlappedBytes, countedFrom := 0, grandparentIndex;
      }
    }

    lemma NothingCounted()
      ensures forall n :: 0 <= n <= |grandparents| ==> TotalFileSize(grandparents[n..n]) == 0
    {
    }

    /** What ends before the last key asked for ends before a later one. */
    lemma PassedStay(k: InternalKey)
      requires Counted() && (stoppedAt.Some? ==> Less(stoppedAt.value, k))
      ensures forall i :: 0 <= i < grandparentIndex ==> Less(grandparents[i].largest, k)
    {
    }

    lemma OneMore(from: nat, n: nat)
      requires from <= n < |grandparents|
      ensures TotalFileSize(grandparents[from..n + 1]) == TotalFileSize(grandparents[from..n]) + grandparents[n].size
      decreases n - from
    {
      if from < n {
        OneMore(from + 1, n);
        assert grandparents[from..n + 1][1..] == grandparents[from + 1..n + 1];
        assert grandparents[from..n][1..] == grandparents[from + 1..n];
      } else {
        assert grandparents[n..n + 1] == [grandparents[n]] && [grandparents[n]][1..] == [];
      }
    }

    /** Asked with non-decreasing keys, a single forward scan per level decides every time. */
    method IsBaseLevelForKey(u: UserKey) returns (base: bool)
      requires Valid()
      requires asked.Some? ==> asked.value <= u
      modifies this`levelPtrs, this`asked
      ensures Valid() && asked == Some(u)
      ensures base <==> IsBase(inputVersion, level, u)
    {
      hide Compaction.Counted;
      asked := Some(u);
      var lvl := level + 2;
      while lvl < NUM_LEVELS
        invariant level + 2 <= lvl && Valid() && asked == Some(u)
        invariant forall l, f :: level + 2 <= l < lvl && InLevel(inputVersion, l, f) ==>
                    !(f.smallest.user <= u <= f.largest.user)
      {
        var files := inputVersion[lvl];
        while levelPtrs[lvl] < |files|
          invariant Valid() && asked == Some(u)
          decreases |files| - levelPtrs[lvl]
        {
          var f := files[levelPtrs[lvl]];
          if u <= f.largest.user {
            if u >= f.smallest.user {
              assert InLevel(inputVersion, lvl, f);
              return false;
            }
            break;
          }
          levelPtrs := levelPtrs[lvl := levelPtrs[lvl] + 1];
        }
        ScanDecides(files, levelPtrs[lvl], u);
        lvl := lvl + 1;
      }
      return true;
    }
  }

  /** Files before the pointer end too early, the file at the pointer starts too late, and so do the rest. */
  lemma ScanDecides(files: seq<FileMeta>, n: nat, u: UserKey)
    requires ValidFiles(files) && SortedLevel(files) && n <= |files|
    requires forall k :: 0 <= k < n ==> files[k].largest.user < u
    requires n < |files| ==> u < files[n].smallest.user
    ensures forall f :: f in files ==> !(f.smallest.user <= u <= f.largest.user)
  {
    forall f | f in files ensures !(f.smallest.user <= u <= f.largest.user) {
      var k :| 0 <= k < |files| && files[k] == f;
      if n <= k {
        LargestIncreases(files, n, k);
      }
    }
  }

  // ---------- the loop ----------

  /** The surviving ones among the first `n` input entries, in order. */
  ghost function Kept(input: seq<Entry>, n: nat, smallest: nat, base: iset<UserKey>): seq<Entry>
    requires n <= |input|
  {
    if n == 0 then []
    else
      Kept(input, n - 1, smallest, base) +
      (if Survives(Contents(input), smallest, base, input[n - 1]) then [input[n - 1]] else [])
  }

  lemma {:induction false} KeptAre(input: seq<Entry>, n: nat, smallest: nat, base: iset<UserKey>)
    requires n <= |input|
    ensures forall e ::
              e in Kept(input, n, smallest, base)
              <==> e in input[..n] && Survives(Contents(input), smallest, base, e)
  {
    hide Survives;
    if n > 0 {
      KeptAre(input, n - 1, smallest, base);
      assert input[..n] == input[..n - 1] + [input[n - 1]];
    }
  }

  lemma {:induction false} KeptSorted(input: seq<Entry>, n: nat, smallest: nat, base: iset<UserKey>)
    requires n <= |input| && Sorted(input)
    ensures Sorted(Kept(input, n, smallest, base))
  {
    if n > 0 {
      KeptSorted(input, n - 1, smallest, base);
      KeptAre(input, n - 1, smallest, base);
      forall e | e in Kept(input, n - 1, smallest, base) ensures Less(e.key, input[n - 1].key) {
        var i :| 0 <= i < n - 1 && input[..n - 1][i] == e;
      }
    }
  }

  /** Only the entry just before can hide an entry: it is the newest older-positioned one of the key. */
  lemma HiddenByPrevious(input: seq<Entry>, i: nat, smallest: nat)
    requires Sorted(input) && Functional(Contents(input)) && i < |input|
    ensures Hidden(Contents(input), smallest, input[i]) <==>
              i > 0 && input[i - 1].key.user == input[i].key.user && input[i - 1].key.sequence <= smallest
  {
    var e := input[i];
    if x :| x in Contents(input) && x.key.user == e.key.user && e.key.sequence < x.key.sequence <= smallest {
      var j :| 0 <= j < |input| && input[j] == x;
      assert i < j ==> Less(e.key, x.key);
      assert j < i - 1 ==> Less(input[j].key, input[i - 1].key);
      assert Less(input[i - 1].key, e.key);
    }
    if i > 0 && input[i - 1].key.user == e.key.user && input[i - 1].key.sequence <= smallest {
      var p := input[i - 1];
      assert p in Contents(input) && e in Contents(input);
      assert Less(p.key, e.key);
      assert p.key.sequence == e.key.sequence ==> p == e;
    }
  }

  lemma InputIncreases(input: seq<Entry>, i: nat)
    requires Sorted(input) && i < |input|
    ensures i > 0 ==> input[i - 1].key.user <= input[i].key.user
    ensures input[i] in Contents(input)
  {
    assert i > 0 ==> Less(input[i - 1].key, input[i].key);
  }

  /** The rules that cut the output, in bytes: of a finished file, and of grandparents under one output; and the size
      that a builder holding some entries says it has. */
  datatype Limits = Limits(maxFileSize: nat, maxOverlap: nat, fileSize: seq<Entry> -> nat)

  /** An output is no longer than the size limit makes it. */
  ghost predicate NotTooLong(o: seq<Entry>, limits: Limits) {
    forall n :: 0 < n < |o| ==> limits.fileSize(o[..n]) < limits.maxFileSize
  }

  /** An output in front of an entry with key `k` has reached the size limit, or a stop lies between them. */
  ghost predicate CutBefore(o: seq<Entry>, k: InternalKey, stops: iset<InternalKey>, limits: Limits) {
    || limits.fileSize(o) >= limits.maxFileSize
    || (o != [] && exists s :: s in stops && Less(o[|o| - 1].key, s) && !Less(k, s))
  }

  /** One output was finished in front of the other. */
  ghost predicate CutBetween(o: seq<Entry>, o': seq<Entry>, stops: iset<InternalKey>, limits: Limits) {
    o' != [] && CutBefore(o, o'[0].key, stops, limits)
  }

  /** The output being written is short enough, and no stop falls behind its first key and in front of `next`. */
  ghost predicate MayGoOn(builder: seq<Entry>, next: Option<InternalKey>, stops: iset<InternalKey>, limits: Limits) {
    && (forall n :: 0 < n <= |builder| ==> limits.fileSize(builder[..n]) < limits.maxFileSize)
    && (builder != [] ==>
          && (next.Some? ==> Less(builder[|builder| - 1].key, next.value))
          && forall s :: s in stops && Less(builder[0].key, s) ==> next.Some? && !Less(s, next.value))
  }

  /** What has been written so far, `next` being the key that comes next. */
  ghost predicate CutsRight(outputs: seq<seq<Entry>>, builder: seq<Entry>, next: Option<InternalKey>,
                            stops: iset<InternalKey>, limits: Limits) {
    && (forall o :: o in outputs ==> o != [] && NotTooLong(o, limits) && GoesOn(o, stops))
    && (forall k :: 0 < k < |outputs| ==> CutBetween(outputs[k - 1], outputs[k], stops, limits))
    && (outputs != [] && builder != [] ==> CutBefore(outputs[|outputs| - 1], builder[0].key, stops, limits))
    && (outputs != [] && builder == [] && next.Some? ==>
          CutBefore(outputs[|outputs| - 1], next.value, stops, limits))
    && MayGoOn(builder, next, stops, limits)
  }

  /** Where the loop is: the outputs, the one being written, and the user key and sequence number of the last entry. */
  datatype Work = Work(outputs: seq<seq<Entry>>, builder: seq<Entry>, userKey: Option<UserKey>, lastSequence: nat)

  ghost function StopsOf(c: Compaction, input: seq<Entry>, limits: Limits): iset<InternalKey>
    requires Sorted(input)
  {
    StopKeys(input, c.grandparents, limits.maxOverlap)
  }

  /** The state of the loop in front of entry `i`: the survivors so far are written, and the cuts are right. */
  ghost predicate WorkAt(c: Compaction, input: seq<Entry>, i: nat, w: Work, smallest: nat, limits: Limits)
    requires i <= |input| && Sorted(input)
  {
    && (i == 0 ==> w.userKey == None)
    && (i > 0 ==> w.userKey == Some(input[i - 1].key.user) && w.lastSequence == input[i - 1].key.sequence)
    && Concat(w.outputs) + w.builder == Kept(input, i, smallest, BaseKeys(c.inputVersion, c.level))
    && CutsRight(w.outputs, w.builder, NextKey(input, i), StopsOf(c, input, limits), limits)
  }

  /** What the compaction has been asked up to entry `i`. */
  ghost predicate AskedUpTo(c: Compaction, input: seq<Entry>, i: nat, limits: Limits)
    requires i <= |input| && Sorted(input)
    reads c
  {
    && c.Valid() && (c.asked.Some? ==> i > 0 && c.asked.value <= input[i - 1].key.user)
    && StoppedUpTo(c, input, i, limits)
  }

  /** The grandparents are counted as the keys up to entry `i` decide. */
  ghost predicate StoppedUpTo(c: Compaction, input: seq<Entry>, i: nat, limits: Limits)
    requires i <= |input| && Sorted(input)
    reads c`stoppedAt, c`countedFrom
  {
    && c.stoppedAt == (if i == 0 then None else Some(input[i - 1].key))
    && (i > 0 ==> c.countedFrom == CountedFrom(input, i, c.grandparents, limits.maxOverlap))
  }

  /** Runs the drop rules over the merged input.  An output is finished in front of an entry when too much of the
      grandparents was passed, and behind one when it has reached its size; then and only then. */
  method DoCompactionWork(c: Compaction, input: seq<Entry>, smallestSnapshot: nat, limits: Limits)
    returns (outputs: seq<seq<Entry>>)
    requires c.Valid() && c.asked == None && c.stoppedAt == None
    requires ValidFiles(c.grandparents) && SortedLevel(c.grandparents)
    requires Sorted(input) && Functional(Contents(input))
    requires smallestSnapshot < MAX_SEQUENCE
    modifies c
    ensures c.Valid()
    ensures Concat(outputs) == Kept(input, |input|, smallestSnapshot, BaseKeys(c.inputVersion, c.level))
    ensures forall o :: o in outputs ==> o != [] && NotTooLong(o, limits) && GoesOn(o, StopsOf(c, input, limits))
    ensures forall k :: 0 < k < |outputs| ==> CutBetween(outputs[k - 1], outputs[k], StopsOf(c, input, limits), limits)
    ensures forall o :: o in outputs ==> LittleOverlap(o, c.grandparents, limits.maxOverlap)
  {
    hide Functional, Contents, Sorted, Compaction.Valid, Kept, BaseKeys, CutsRight, NotTooLong, CutBetween, StopKeys;
    hide ValidFiles, SortedLevel, GoesOn, LittleOverlap;
    var w := Work([], [], None, MAX_SEQUENCE);
    NothingCut(input, c, limits);
    NothingKept(input, smallestSnapshot, BaseKeys(c.inputVersion, c.level));
    hide Concat;
    var i := 0;
    while i < |input|
      invariant 0 <= i <= |input| && AskedUpTo(c, input, i, limits)
      invariant WorkAt(c, input, i, w, smallestSnapshot, limits)
    {
      w := DoEntry(c, input, i, w, smallestSnapshot, limits);
      i := i + 1;
    }
    var builder;
    outputs, builder := FinishOutput(w.outputs, w.builder, true);
    CutsEnd(w.outputs, w.builder, outputs, StopsOf(c, input, limits), limits);
    assert Concat(outputs) + [] == Concat(outputs);
    OutputsOverlap(c, input, smallestSnapshot, outputs, limits);
  }

  /** One entry of the merged input. */
  method DoEntry(c: Compaction, input: seq<Entry>, i: nat, w: Work, smallestSnapshot: nat, limits: Limits)
    returns (w': Work)
    requires Sorted(input) && Functional(Contents(input)) && i < |input| && smallestSnapshot < MAX_SEQUENCE
    requires AskedUpTo(c, input, i, limits) && WorkAt(c, input, i, w, smallestSnapshot, limits)
    modifies c
    ensures AskedUpTo(c, input, i + 1, limits) && WorkAt(c, input, i + 1, w', smallestSnapshot, limits)
  {
    hide Concat, Functional, Obsolete, Survives, Contents, Less, Sorted, Compaction.Valid, CutsRight, BaseKeys, Kept;
    hide StopKeys, NoStopUntil, StoppedUpTo;
    var e := input[i];
    InputIncreases(input, i);
    var outputs, builder := StopBefore(c, w.outputs, w.builder, input, i, limits);
    var before := if w.userKey != Some(e.key.user) then MAX_SEQUENCE else w.lastSequence;
    PreviousHides(input, i, w.userKey, w.lastSequence, smallestSnapshot, c);
    var drop := ShouldDrop(c, e, before, smallestSnapshot);
    KeptNext(input, i, smallestSnapshot, BaseKeys(c.inputVersion, c.level));
    NoStopUntilNext(input, i, c.grandparents, limits.maxOverlap);
    if !drop {
      outputs, builder := AddEntry(outputs, builder, e, limits, NextKey(input, i + 1), StopsOf(c, input, limits));
    } else {
      EntryDropped(outputs, builder, e.key, NextKey(input, i + 1), StopsOf(c, input, limits), limits);
    }
    w' := Work(outputs, builder, Some(e.key.user), e.key.sequence);
  }

  /** The drop decision for one entry, given the sequence number of its predecessor for the key. */
  method ShouldDrop(c: Compaction, e: Entry, lastSequenceForKey: nat, smallestSnapshot: nat) returns (drop: bool)
    requires c.Valid() && (c.asked.Some? ==> c.asked.value <= e.key.user)
    modifies c`levelPtrs, c`asked
    ensures c.Valid() && (c.asked == old(c.asked) || c.asked == Some(e.key.user))
    ensures drop <==>
              lastSequenceForKey <= smallestSnapshot
              || Obsolete(smallestSnapshot, BaseKeys(c.inputVersion, c.level), e)
  {
    drop := false;
    if lastSequenceForKey <= smallestSnapshot {
      drop := true;
    } else if e.key.kind.Deletion? && e.key.sequence <= smallestSnapshot {
      drop := c.IsBaseLevelForKey(e.key.user);
    }
  }

  /** The sequence number remembered decides what the drop rules say. */
  lemma PreviousHides(input: seq<Entry>, i: nat, currentUserKey: Option<UserKey>, lastSequenceForKey: nat,
                      smallestSnapshot: nat, c: Compaction)
    requires Sorted(input) && Functional(Contents(input)) && i < |input| && smallestSnapshot < MAX_SEQUENCE
    requires i == 0 ==> currentUserKey == None
    requires i > 0 ==> currentUserKey == Some(input[i - 1].key.user) && lastSequenceForKey == input[i - 1].key.sequence
    ensures var before := if currentUserKey != Some(input[i].key.user) then MAX_SEQUENCE else lastSequenceForKey;
            var base := BaseKeys(c.inputVersion, c.level);
            (before <= smallestSnapshot || Obsolete(smallestSnapshot, base, input[i]))
            <==> !Survives(Contents(input), smallestSnapshot, base, input[i])
  {
    hide Functional, IsBase, Hidden, Less, Sorted;
    HiddenByPrevious(input, i, smallestSnapshot);
  }

  lemma KeysIncrease(input: seq<Entry>, i: nat)
    requires Sorted(input) && 0 < i < |input|
    ensures Less(input[i - 1].key, input[i].key)
  {
  }

  lemma NothingKept(input: seq<Entry>, smallest: nat, base: iset<UserKey>)
    ensures Kept(input, 0, smallest, base) == []
  {
  }

  lemma KeptNext(input: seq<Entry>, i: nat, smallest: nat, base: iset<UserKey>)
    requires i < |input|
    ensures Kept(input, i + 1, smallest, base)
         == Kept(input, i, smallest, base)
            + (if Survives(Contents(input), smallest, base, input[i]) then [input[i]] else [])
  {
  }

  lemma NothingCut(input: seq<Entry>, c: Compaction, limits: Limits)
    requires Sorted(input)
    ensures CutsRight([], [], NextKey(input, 0), StopsOf(c, input, limits), limits)
  {
  }

  /** Closes the output in front of entry `i` if too much of the grandparents was passed. */
  method StopBefore(c: Compaction, outputs: seq<seq<Entry>>, builder: seq<Entry>, input: seq<Entry>,
                    i: nat, limits: Limits)
    returns (outputs': seq<seq<Entry>>, builder': seq<Entry>)
    requires Sorted(input) && i < |input| && c.Valid() && StoppedUpTo(c, input, i, limits)
    requires CutsRight(outputs, builder, Some(input[i].key), StopsOf(c, input, limits), limits)
    modifies c`grandparentIndex, c`seenKey, c`overlappedBytes, c`countedFrom, c`stoppedAt
    ensures c.Valid() && StoppedUpTo(c, input, i + 1, limits)
    ensures Concat(outputs') + builder' == Concat(outputs) + builder
    ensures CutsRight(outputs', builder', Some(input[i].key), StopsOf(c, input, limits), limits)
    ensures builder' != [] ==> input[i].key !in StopsOf(c, input, limits)
  {
    hide Compaction.Valid, NotTooLong, CutsRight, Concat, Sorted, Less, StopKeys, CutBefore, GoesOn, TotalFileSize;
    hide EndBefore, CountedFrom;
    var k := input[i].key;
    if i > 0 {
      KeysIncrease(input, i);
    }
    ghost var from := if i == 0 then EndBefore(c.grandparents, k) else c.countedFrom;
    StopDecided(input, i, c.grandparents, limits.maxOverlap, from);
    var stop := c.ShouldStopBefore(k, limits.maxOverlap);
    if stop && builder != [] {
      MayStop(outputs, builder, k, StopsOf(c, input, limits), limits);
      Stopped(builder, k, StopsOf(c, input, limits), limits);
      Closed(outputs, builder, Some(k), Some(k), StopsOf(c, input, limits), limits);
    }
    outputs', builder' := FinishOutput(outputs, builder, stop);
  }

  lemma MayStop(outputs: seq<seq<Entry>>, builder: seq<Entry>, k: InternalKey, stops: iset<InternalKey>, limits: Limits)
    requires CutsRight(outputs, builder, Some(k), stops, limits)
    ensures MayGoOn(builder, Some(k), stops, limits)
  {
  }

  /** Adds an entry to the output, and closes it if it has reached its size. */
  method AddEntry(outputs: seq<seq<Entry>>, builder: seq<Entry>, e: Entry, limits: Limits,
                  ghost next: Option<InternalKey>, ghost stops: iset<InternalKey>)
    returns (outputs': seq<seq<Entry>>, builder': seq<Entry>)
    requires CutsRight(outputs, builder, Some(e.key), stops, limits) && NoStopUntil(e.key, next, stops)
    requires builder != [] ==> e.key !in stops
    ensures Concat(outputs') + builder' == Concat(outputs) + builder + [e]
    ensures CutsRight(outputs', builder', next, stops, limits)
  {
    hide CutsRight, Concat, NoStopUntil;
    var more := builder + [e];
    EntryAdded(outputs, builder, e, next, stops, limits);
    assert Concat(outputs) + more == Concat(outputs) + builder + [e];
    outputs', builder' := FinishOutput(outputs, more, limits.fileSize(more) >= limits.maxFileSize);
  }

  /** The output being written is closed in front of `next`. */
  lemma Closed(outputs: seq<seq<Entry>>, builder: seq<Entry>, k: Option<InternalKey>, next: Option<InternalKey>,
               stops: iset<InternalKey>, limits: Limits)
    requires CutsRight(outputs, builder, k, stops, limits) && builder != [] && GoesOn(builder, stops)
    requires next.Some? ==> CutBefore(builder, next.value, stops, limits)
    ensures CutsRight(outputs + [builder], [], next, stops, limits)
  {
    hide CutBefore, GoesOn, Less;
    var all: seq<seq<Entry>> := outputs + [builder];
    forall i | 0 < i < |all| ensures CutBetween(all[i - 1], all[i], stops, limits) {
      if i == |outputs| {
        assert all[i] == builder && all[i - 1] == outputs[|outputs| - 1];
      }
    }
  }

  /** A stop at `k` closes the output in front of it. */
  lemma Stopped(builder: seq<Entry>, k: InternalKey, stops: iset<InternalKey>, limits: Limits)
    requires MayGoOn(builder, Some(k), stops, limits) && builder != [] && k in stops
    ensures GoesOn(builder, stops) && CutBefore(builder, k, stops, limits)
  {
  }

  /** An entry that may join the output lets it go on up to the next one. */
  lemma Joined(builder: seq<Entry>, e: Entry, next: Option<InternalKey>, stops: iset<InternalKey>, limits: Limits)
    requires MayGoOn(builder, Some(e.key), stops, limits) && NoStopUntil(e.key, next, stops)
    requires builder != [] ==> e.key !in stops
    ensures GoesOn(builder + [e], stops)
    ensures limits.fileSize(builder + [e]) < limits.maxFileSize ==> MayGoOn(builder + [e], next, stops, limits)
    ensures NotTooLong(builder + [e], limits)
  {
    hide Less;
    var more := builder + [e];
    assert forall n :: 0 < n <= |builder| ==> more[..n] == builder[..n];
    assert more[..|more|] == more;
    forall s | s in stops && Less(more[0].key, s) ensures Less(e.key, s) {
      LessTotal(e.key, s);
    }
  }

  /** An entry joins the output, which is closed if that makes it large enough. */
  lemma EntryAdded(outputs: seq<seq<Entry>>, builder: seq<Entry>, e: Entry, next: Option<InternalKey>,
                   stops: iset<InternalKey>, limits: Limits)
    requires CutsRight(outputs, builder, Some(e.key), stops, limits) && NoStopUntil(e.key, next, stops)
    requires builder != [] ==> e.key !in stops
    ensures var more := builder + [e];
            if limits.fileSize(more) >= limits.maxFileSize
            then CutsRight(outputs + [more], [], next, stops, limits)
            else CutsRight(outputs, more, next, stops, limits)
  {
    hide CutBefore, GoesOn, MayGoOn, NoStopUntil, NotTooLong, Less;
    var more := builder + [e];
    Joined(builder, e, next, stops, limits);
    if limits.fileSize(more) >= limits.maxFileSize {
      var all: seq<seq<Entry>> := outputs + [more];
      if next.Some? {
        FullIsCut(more, next.value, stops, limits);
      }
      NothingGoesOn(next, stops, limits);
      forall i | 0 < i < |all| ensures CutBetween(all[i - 1], all[i], stops, limits) {
        if i == |outputs| {
          assert all[i] == more && all[i - 1] == outputs[|outputs| - 1];
        }
      }
    }
  }

  lemma NothingGoesOn(next: Option<InternalKey>, stops: iset<InternalKey>, limits: Limits)
    ensures MayGoOn([], next, stops, limits)
  {
  }

  lemma FullIsCut(o: seq<Entry>, k: InternalKey, stops: iset<InternalKey>, limits: Limits)
    requires limits.fileSize(o) >= limits.maxFileSize
    ensures CutBefore(o, k, stops, limits)
  {
  }

  /** An entry is dropped: what comes next is behind it. */
  lemma EntryDropped(outputs: seq<seq<Entry>>, builder: seq<Entry>, k: InternalKey, next: Option<InternalKey>,
                     stops: iset<InternalKey>, limits: Limits)
    requires CutsRight(outputs, builder, Some(k), stops, limits) && NoStopUntil(k, next, stops)
    requires builder != [] ==> k !in stops
    ensures CutsRight(outputs, builder, next, stops, limits)
  {
    hide NotTooLong, GoesOn;
    if outputs != [] && builder == [] && next.Some? {
      CutLater(outputs[|outputs| - 1], k, next.value, stops, limits);
    }
    if builder != [] {
      forall s | s in stops && Less(builder[0].key, s) ensures next.Some? && !Less(s, next.value) {
        LessTotal(s, k);
      }
    }
  }

  lemma CutLater(o: seq<Entry>, k: InternalKey, later: InternalKey, stops: iset<InternalKey>, limits: Limits)
    requires CutBefore(o, k, stops, limits) && Less(k, later)
    ensures CutBefore(o, later, stops, limits)
  {
  }

  /** At the end of the input the last output is closed as it is. */
  lemma CutsEnd(outputs: seq<seq<Entry>>, builder: seq<Entry>, all: seq<seq<Entry>>, stops: iset<InternalKey>,
                limits: Limits)
    requires CutsRight(outputs, builder, None, stops, limits)
    requires all == if builder == [] then outputs else outputs + [builder]
    ensures forall o :: o in all ==> o != [] && NotTooLong(o, limits) && GoesOn(o, stops)
    ensures forall k :: 0 < k < |all| ==> CutBetween(all[k - 1], all[k], stops, limits)
  {
    hide CutBefore;
    if builder != [] {
      Closed(outputs, builder, None, None, stops, limits);
    }
  }

  /** No output straddles too much of the grandparents. */
  lemma OutputsOverlap(c: Compaction, input: seq<Entry>, smallest: nat, outputs: seq<seq<Entry>>, limits: Limits)
    requires Sorted(input) && ValidFiles(c.grandparents) && SortedLevel(c.grandparents)
    requires Concat(outputs) == Kept(input, |input|, smallest, BaseKeys(c.inputVersion, c.level))
    requires forall o :: o in outputs ==> o != [] && GoesOn(o, StopsOf(c, input, limits))
    ensures forall o :: o in outputs ==> LittleOverlap(o, c.grandparents, limits.maxOverlap)
  {
    hide Sorted, ValidFiles, SortedLevel, GoesOn, LittleOverlap, Kept, BaseKeys, Concat, StopKeys, Survives;
    var base := BaseKeys(c.inputVersion, c.level);
    KeptAre(input, |input|, smallest, base);
    KeptSorted(input, |input|, smallest, base);
    assert input[..|input|] == input;
    forall o | o in outputs ensures LittleOverlap(o, c.grandparents, limits.maxOverlap) {
      var i :| 0 <= i < |outputs| && outputs[i] == o;
      PieceEnds(outputs, i);
      OutputOverlap(input, o, c.grandparents, limits.maxOverlap);
    }
  }

  lemma {:induction false} PieceEnds(runs: seq<seq<Entry>>, i: nat)
    requires Sorted(Concat(runs)) && i < |runs| && runs[i] != []
    ensures var o := runs[i];
            && o[0] in Concat(runs) && o[|o| - 1] in Concat(runs)
            && LessEq(o[0].key, o[|o| - 1].key)
  {
    hide Less;
    var o, rest := runs[0], Concat(runs[1..]);
    var all := Concat(runs);
    assert all == o + rest;
    if i == 0 {
      assert all[0] == o[0] && all[|o| - 1] == o[|o| - 1];
    } else {
      forall a, b | 0 <= a < b < |rest| ensures Less(rest[a].key, rest[b].key) {
        assert rest[a] == all[|o| + a] && rest[b] == all[|o| + b];
      }
      PieceEnds(runs[1..], i - 1);
    }
  }

  /** Closes the output file being built, if there is one and it is time to. */
  method FinishOutput(outputs: seq<seq<Entry>>, builder: seq<Entry>, finish: bool)
    returns (outputs': seq<seq<Entry>>, builder': seq<Entry>)
    ensures Concat(outputs') + builder' == Concat(outputs) + builder
    ensures (outputs', builder') == if finish && builder != [] then (outputs + [builder], []) else (outputs, builder)
  {
    outputs', builder' := outputs, builder;
    if finish && builder != [] {
      ConcatAppend(outputs, builder);
      outputs', builder' := outputs + [builder], [];
    }
  }
}
