/** Where the grandparents of a compaction cut its output (db/version_set.cc ShouldStopBefore): the stops that the input
    keys alone decide, and what they mean for one output. */
module StopRules {
  import opened InternalKeys
  import opened Files

  lemma EndBeforeGrows(files: seq<FileMeta>, k: InternalKey, later: InternalKey)
    requires k == later || Less(k, later)
    ensures EndBefore(files, k) <= EndBefore(files, later)
  {
  }

  /** The bytes of the files that an output from `first` to `last` has to be compacted with: those that do not end
      before its first key, but end before its last. */
  ghost function StraddledBytes(files: seq<FileMeta>, first: InternalKey, last: InternalKey): nat {
    if files == [] then 0
    else
      (if !Less(files[0].largest, first) && Less(files[0].largest, last) then files[0].size else 0)
      + StraddledBytes(files[1..], first, last)
  }

  /** The output straddles at most `maxOverlap` bytes. */
  ghost predicate LittleOverlap(o: seq<Entry>, files: seq<FileMeta>, maxOverlap: nat) {
    o != [] ==> StraddledBytes(files, o[0].key, o[|o| - 1].key) <= maxOverlap
  }

  /** In a sorted level those files are neighbours. */
  lemma {:induction false} StraddledAreNeighbours(files: seq<FileMeta>, first: InternalKey, last: InternalKey)
    requires ValidFiles(files) && SortedLevel(files) && (first == last || Less(first, last))
    ensures EndBefore(files, first) <= EndBefore(files, last)
    ensures StraddledBytes(files, first, last) == TotalFileSize(files[EndBefore(files, first)..EndBefore(files, last)])
  {
    hide ValidFiles, SortedLevel, Less;
    EndBeforeGrows(files, first, last);
    if files != [] {
      RestSorted(files);
      StraddledAreNeighbours(files[1..], first, last);
      if Less(files[0].largest, first) {
        LessChain(files[0].largest, first, last);
        assert files[EndBefore(files, first)..EndBefore(files, last)]
            == files[1..][EndBefore(files[1..], first)..EndBefore(files[1..], last)];
      } else {
        NoneBefore(files, first);
        FirstStraddled(files, last);
      }
    }
  }

  lemma FirstStraddled(files: seq<FileMeta>, last: InternalKey)
    requires files != [] && ValidFiles(files) && SortedLevel(files)
    ensures TotalFileSize(files[0..EndBefore(files, last)])
         == (if Less(files[0].largest, last) then files[0].size else 0)
            + TotalFileSize(files[1..][0..EndBefore(files[1..], last)])
  {
    hide ValidFiles, SortedLevel, Less;
    if Less(files[0].largest, last) {
      assert files[0..EndBefore(files, last)][1..] == files[1..][0..EndBefore(files[1..], last)];
    } else {
      NoneBefore(files, last);
    }
  }

  /** Selecting the files that overlap a range around the output loses none of them. */
  lemma {:induction false} StraddledAreSelected(files: seq<FileMeta>, r: Range, first: InternalKey, last: InternalKey)
    requires ValidFiles(files)
    requires r.lo.Some? && r.hi.Some? && r.lo.value <= first.user && last.user <= r.hi.value
    ensures StraddledBytes(Selected(files, r), first, last) == StraddledBytes(files, first, last)
  {
    if files != [] {
      StraddledAreSelected(files[1..], r, first, last);
      RangeOfFile(files[0]);
      assert ([files[0]] + Selected(files[1..], r))[1..] == Selected(files[1..], r);
    }
  }

  lemma LessChain(a: InternalKey, b: InternalKey, c: InternalKey)
    requires (a == b || Less(a, b)) && (b == c || Less(b, c))
    ensures a == c || Less(a, c)
    ensures Less(a, b) || Less(b, c) ==> Less(a, c)
  {
  }

  lemma RestSorted(files: seq<FileMeta>)
    requires files != [] && ValidFiles(files) && SortedLevel(files)
    ensures ValidFiles(files[1..]) && SortedLevel(files[1..])
  {
  }

  lemma NoneBefore(files: seq<FileMeta>, k: InternalKey)
    requires files != [] && ValidFiles(files) && SortedLevel(files) && !Less(files[0].largest, k)
    ensures EndBefore(files[1..], k) == 0
  {
    if |files| > 1 {
      LargestIncreases(files, 0, 1);
    }
  }

  // ---------- stops ----------

  /** The first grandparent whose bytes count once the first `i` keys were asked for: where the scan stood at the last
      stop, or at the first key. */
  ghost function CountedFrom(input: seq<Entry>, i: nat, files: seq<FileMeta>, maxOverlap: nat): (n: nat)
    requires Sorted(input) && 0 < i <= |input|
    ensures n <= EndBefore(files, input[i - 1].key)
  {
    var here := EndBefore(files, input[i - 1].key);
    if i == 1 then here
    else
      EndBeforeGrows(files, input[i - 2].key, input[i - 1].key);
      var from := CountedFrom(input, i - 1, files, maxOverlap);
      if TotalFileSize(files[from..here]) > maxOverlap then here else from
  }

  /** More than `maxOverlap` bytes were passed since the last stop. */
  ghost predicate StopsAt(input: seq<Entry>, i: nat, files: seq<FileMeta>, maxOverlap: nat)
    requires Sorted(input) && i < |input|
  {
    && i > 0
    && (EndBeforeGrows(files, input[i - 1].key, input[i].key);
        TotalFileSize(files[CountedFrom(input, i, files, maxOverlap)..EndBefore(files, input[i].key)]) > maxOverlap)
  }

  /** The keys in front of which an output may not go on. */
  ghost function StopKeys(input: seq<Entry>, files: seq<FileMeta>, maxOverlap: nat): iset<InternalKey>
    requires Sorted(input)
  {
    iset i: nat | i < |input| && StopsAt(input, i, files, maxOverlap) :: input[i].key
  }

  lemma StopIsKey(input: seq<Entry>, i: nat, files: seq<FileMeta>, maxOverlap: nat)
    requires Sorted(input) && i < |input|
    ensures input[i].key in StopKeys(input, files, maxOverlap) <==> StopsAt(input, i, files, maxOverlap)
  {
    hide StopsAt;
    forall j: nat | j < |input| && input[j].key == input[i].key ensures j == i {
      LessTotal(input[i].key, input[i].key);
    }
  }

  /** What the scan decides at entry `i`, from the grandparent it counts from. */
  lemma StopDecided(input: seq<Entry>, i: nat, files: seq<FileMeta>, maxOverlap: nat, from: nat)
    requires Sorted(input) && i < |input|
    requires from == if i == 0 then EndBefore(files, input[0].key) else CountedFrom(input, i, files, maxOverlap)
    ensures var here := EndBefore(files, input[i].key);
            && from <= here
            && (TotalFileSize(files[from..here]) > maxOverlap <==> input[i].key in StopKeys(input, files, maxOverlap))
            && CountedFrom(input, i + 1, files, maxOverlap)
            == if input[i].key in StopKeys(input, files, maxOverlap) then here else from
  {
    hide Less, StopKeys, EndBefore;
    StopIsKey(input, i, files, maxOverlap);
    if i > 0 {
      EndBeforeGrows(files, input[i - 1].key, input[i].key);
    }
  }

  /** The stops behind `k` are not in front of `next`. */
  ghost predicate NoStopUntil(k: InternalKey, next: Option<InternalKey>, stops: iset<InternalKey>) {
    && (next.Some? ==> Less(k, next.value))
    && forall s :: s in stops && Less(k, s) ==> next.Some? && !Less(s, next.value)
  }

  lemma NoStopUntilNext(input: seq<Entry>, i: nat, files: seq<FileMeta>, maxOverlap: nat)
    requires Sorted(input) && i < |input|
    ensures NoStopUntil(input[i].key, NextKey(input, i + 1), StopKeys(input, files, maxOverlap))
  {
    hide Less, StopsAt;
    forall s | s in StopKeys(input, files, maxOverlap) && Less(input[i].key, s)
      ensures i + 1 < |input| && !Less(s, input[i + 1].key)
    {
      var j: nat :| j < |input| && input[j].key == s;
      LessTotal(input[i].key, s);
      if i + 1 < |input| {
        LessTotal(input[i + 1].key, s);
      }
    }
  }

  function NextKey(input: seq<Entry>, i: nat): Option<InternalKey> {
    if i < |input| then Some(input[i].key) else None
  }

  /** No stop falls behind the first key of `o` and not behind its last. */
  ghost predicate GoesOn(o: seq<Entry>, stops: iset<InternalKey>) {
    o != [] ==> forall k :: k in stops && Less(o[0].key, k) ==> Less(o[|o| - 1].key, k)
  }

  lemma {:induction false} CountedStays(input: seq<Entry>, a: nat, b: nat, files: seq<FileMeta>, maxOverlap: nat)
    requires Sorted(input) && a <= b < |input|
    requires forall i :: a < i <= b ==> !StopsAt(input, i, files, maxOverlap)
    ensures CountedFrom(input, b + 1, files, maxOverlap) == CountedFrom(input, a + 1, files, maxOverlap)
    decreases b - a
  {
    hide *;
    if a < b {
      CountedStays(input, a, b - 1, files, maxOverlap);
      CountedOn(input, b, files, maxOverlap);
    }
  }

  lemma CountedOn(input: seq<Entry>, i: nat, files: seq<FileMeta>, maxOverlap: nat)
    requires Sorted(input) && 0 < i < |input| && !StopsAt(input, i, files, maxOverlap)
    ensures CountedFrom(input, i + 1, files, maxOverlap) == CountedFrom(input, i, files, maxOverlap)
  {
    hide Sorted, Less, TotalFileSize, EndBefore;
  }

  lemma StopsHere(input: seq<Entry>, i: nat, files: seq<FileMeta>, maxOverlap: nat)
    requires Sorted(input) && 0 < i < |input| && !StopsAt(input, i, files, maxOverlap)
    ensures var from, n := CountedFrom(input, i, files, maxOverlap), EndBefore(files, input[i].key);
            from <= n && TotalFileSize(files[from..n]) <= maxOverlap
  {
    hide Less, TotalFileSize, EndBefore, CountedFrom;
    EndBeforeGrows(files, input[i - 1].key, input[i].key);
  }

  lemma {:induction false} SizeOfPart(files: seq<FileMeta>, from: nat)
    requires from <= |files|
    ensures TotalFileSize(files[from..]) <= TotalFileSize(files)
  {
    if from > 0 {
      SizeOfPart(files[1..], from - 1);
      assert files[1..][from - 1..] == files[from..];
    } else {
      assert files[0..] == files;
    }
  }

  lemma PositionsOrdered(input: seq<Entry>, a: nat, b: nat)
    requires Sorted(input) && a < |input| && b < |input| && LessEq(input[a].key, input[b].key)
    ensures a <= b && (a < b ==> Less(input[a].key, input[b].key))
  {
    hide Less;
    LessTotal(input[a].key, input[b].key);
  }

  lemma NoStopBetween(input: seq<Entry>, a: nat, b: nat, o: seq<Entry>, files: seq<FileMeta>, maxOverlap: nat)
    requires Sorted(input) && a <= b < |input| && o != [] && input[a] == o[0] && input[b] == o[|o| - 1]
    requires GoesOn(o, StopKeys(input, files, maxOverlap))
    ensures forall i :: a < i <= b ==> !StopsAt(input, i, files, maxOverlap)
  {
    hide Less, StopsAt;
    forall i | a < i <= b ensures !StopsAt(input, i, files, maxOverlap) {
      if StopsAt(input, i, files, maxOverlap) {
        assert input[i].key in StopKeys(input, files, maxOverlap);
        LessTotal(input[i].key, input[b].key);
      }
    }
  }

  /** An output that goes over no stop straddles at most `maxOverlap` bytes of the grandparents. */
  lemma OutputOverlap(input: seq<Entry>, o: seq<Entry>, files: seq<FileMeta>, maxOverlap: nat)
    requires Sorted(input) && ValidFiles(files) && SortedLevel(files)
    requires o != [] && o[0] in input && o[|o| - 1] in input && LessEq(o[0].key, o[|o| - 1].key)
    requires GoesOn(o, StopKeys(input, files, maxOverlap))
    ensures LittleOverlap(o, files, maxOverlap)
  {
    hide ValidFiles, SortedLevel, TotalFileSize, StraddledBytes, CountedFrom, EndBefore, StopsAt, Less;
    var first, last := o[0].key, o[|o| - 1].key;
    var a :| 0 <= a < |input| && input[a] == o[0];
    var b :| 0 <= b < |input| && input[b] == o[|o| - 1];
    PositionsOrdered(input, a, b);
    StraddledAreNeighbours(files, first, last);
    if a < b {
      NoStopBetween(input, a, b, o, files, maxOverlap);
      CountedStays(input, a, b - 1, files, maxOverlap);
      var from, m, n := CountedFrom(input, b, files, maxOverlap), EndBefore(files, first), EndBefore(files, last);
      StopsHere(input, b, files, maxOverlap);
      assert files[from..n][m - from..] == files[m..n];
      SizeOfPart(files[from..n], m - from);
    } else {
      NothingStraddled(files, EndBefore(files, first));
    }
  }

  lemma NothingStraddled(files: seq<FileMeta>, n: nat)
    requires n <= |files|
    ensures TotalFileSize(files[n..n]) == 0
  {
  }
}
