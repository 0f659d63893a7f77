/** Table files of a level, searching among them and selecting them (db/version_set.cc). */
module Files {
  import opened InternalKeys
  import opened Meaning

  /** File metadata together with what the table holds. */
  datatype FileMeta = FileMeta(number: nat, size: nat, smallest: InternalKey, largest: InternalKey, entries: seq<Entry>)

  /** Tables are built from a sorted, non-empty run of entries and record its first and last key. */
  ghost predicate ValidFile(f: FileMeta) {
    && f.entries != []
    && Sorted(f.entries)
    && Bounded(f.entries, MAX_SEQUENCE)
    && f.smallest == f.entries[0].key
    && f.largest == f.entries[|f.entries| - 1].key
  }

  ghost predicate ValidFiles(files: seq<FileMeta>) {
    forall f :: f in files ==> ValidFile(f)
  }

  /** Files of a level above 0: sorted and disjoint in internal-key order. */
  ghost predicate SortedLevel(files: seq<FileMeta>) {
    forall i, j :: 0 <= i < j < |files| ==> Less(files[i].largest, files[j].smallest)
  }

  ghost predicate Distinct(files: seq<FileMeta>) {
    forall i, j :: 0 <= i < j < |files| ==> files[i] != files[j]
  }

  /** Every entry of `f` is newer than every entry of `g` for the same user key. */
  ghost predicate Newer(f: FileMeta, g: FileMeta) {
    forall x, y :: x in f.entries && y in g.entries && x.key.user == y.key.user ==> x.key.sequence > y.key.sequence
  }

  /** The keys of a table lie between its first and last key. */
  lemma EntryInRange(f: FileMeta, e: Entry)
    requires ValidFile(f) && e in f.entries
    ensures LessEq(f.smallest, e.key) && LessEq(e.key, f.largest)
    ensures f.smallest.user <= e.key.user <= f.largest.user
    ensures e.key.sequence <= MAX_SEQUENCE
  {
    var i :| 0 <= i < |f.entries| && f.entries[i] == e;
    assert f.entries[0] in f.entries;
  }

  lemma RangeOfFile(f: FileMeta)
    requires ValidFile(f)
    ensures LessEq(f.smallest, f.largest) && f.smallest.user <= f.largest.user
    ensures f.smallest.sequence <= MAX_SEQUENCE && f.largest.sequence <= MAX_SEQUENCE
  {
    EntryInRange(f, f.entries[0]);
    EntryInRange(f, f.entries[|f.entries| - 1]);
  }

  /** Files whose user-key ranges are apart share no user key. */
  lemma ApartIsNewer(f: FileMeta, g: FileMeta)
    requires ValidFile(f) && ValidFile(g)
    requires f.largest.user < g.smallest.user || g.largest.user < f.smallest.user
    ensures Newer(f, g) && Newer(g, f)
  {
    forall x, y | x in f.entries && y in g.entries ensures x.key.user != y.key.user {
      EntryInRange(f, x);
      EntryInRange(g, y);
    }
  }

  // ---------- seeking inside a sorted run ----------

  /** Index of the first entry at or after `k`; this is what a table or memtable seek finds. */
  function Seek(es: seq<Entry>, k: InternalKey): (i: nat)
    ensures i <= |es|
    ensures forall j :: 0 <= j < i ==> Less(es[j].key, k)
    ensures i < |es| ==> !Less(es[i].key, k)
  {
    if es == [] || !Less(es[0].key, k) then 0
    else
      var i := Seek(es[1..], k);
      assert forall j :: 1 <= j < i + 1 ==> es[j] == es[1..][j - 1];
      i + 1
  }

  /** One seek, then a check of the user key found there. */
  function Lookup(es: seq<Entry>, u: UserKey, s: nat): Option<Entry> {
    var i := Seek(es, LookupKey(u, s));
    if i < |es| && es[i].key.user == u then Some(es[i]) else None
  }

  ghost function Contents(es: seq<Entry>): set<Entry> {
    set e | e in es
  }

  /** A single seek finds the newest visible entry of a sorted run. */
  lemma LookupFindsNewest(es: seq<Entry>, u: UserKey, s: nat)
    requires Sorted(es)
    ensures Lookup(es, u, s).Some? ==> IsNewest(Contents(es), u, s, Lookup(es, u, s).value)
    ensures Lookup(es, u, s).None? ==> forall e :: e in es ==> !Visible(e, u, s)
  {
    var k := LookupKey(u, s);
    var i := Seek(es, k);
    forall e | e in es && Visible(e, u, s)
      ensures i < |es| && es[i].key.user == u && e.key.sequence <= es[i].key.sequence
    {
      var j :| 0 <= j < |es| && es[j] == e;
      assert !Less(e.key, k);
      assert i <= j;
      assert i < j ==> Less(es[i].key, es[j].key);
    }
  }

  // ---------- FindFile and range overlap ----------

  /** Binary search for the first file whose largest key is at or after `k`. */
  method FindFile(files: seq<FileMeta>, k: InternalKey) returns (right: nat)
    requires ValidFiles(files) && SortedLevel(files)
    ensures right <= |files|
    ensures forall i :: 0 <= i < right ==> Less(files[i].largest, k)
    ensures forall i :: right <= i < |files| ==> !Less(files[i].largest, k)
  {
    var left := 0;
    right := |files|;
    while left < right
      invariant left <= right <= |files|
      invariant forall i :: 0 <= i < left ==> Less(files[i].largest, k)
      invariant forall i :: right <= i < |files| ==> !Less(files[i].largest, k)
    {
      var mid := (left + right) / 2;
      if Less(files[mid].largest, k) {
        forall i | 0 <= i <= mid ensures Less(files[i].largest, k) {
          LargestIncreases(files, i, mid);
        }
        left := mid + 1;
      } else {
        forall i | mid <= i < |files| ensures !Less(files[i].largest, k) {
          LargestIncreases(files, mid, i);
        }
        right := mid;
      }
    }
  }

  lemma LargestIncreases(files: seq<FileMeta>, i: nat, j: nat)
    requires ValidFiles(files) && SortedLevel(files) && i <= j < |files|
    ensures LessEq(files[i].largest, files[j].largest)
    ensures LessEq(files[i].smallest, files[j].smallest)
  {
    RangeOfFile(files[i]);
    RangeOfFile(files[j]);
  }

  /** How many of the leading files end before `k`. */
  ghost function EndBefore(files: seq<FileMeta>, k: InternalKey): (n: nat)
    ensures n <= |files| && (n < |files| ==> !Less(files[n].largest, k))
    ensures forall i :: 0 <= i < n ==> Less(files[i].largest, k)
  {
    if files == [] || !Less(files[0].largest, k) then 0 else 1 + EndBefore(files[1..], k)
  }

  lemma EndBeforeIs(files: seq<FileMeta>, k: InternalKey, n: nat)
    requires n <= |files| && (n < |files| ==> !Less(files[n].largest, k))
    requires forall i :: 0 <= i < n ==> Less(files[i].largest, k)
    ensures n == EndBefore(files, k)
  {
  }

  /** A range of user keys; a missing bound is unbounded. */
  datatype Range = Range(lo: Option<UserKey>, hi: Option<UserKey>)

  predicate AfterFile(lo: Option<UserKey>, f: FileMeta) {
    lo.Some? && lo.value > f.largest.user
  }

  predicate BeforeFile(hi: Option<UserKey>, f: FileMeta) {
    hi.Some? && hi.value < f.smallest.user
  }

  predicate Overlaps(f: FileMeta, r: Range) {
    !AfterFile(r.lo, f) && !BeforeFile(r.hi, f)
  }

  /** Whether some file overlaps the range; sorted files are searched by bisection. */
  method SomeFileOverlapsRange(disjointSorted: bool, files: seq<FileMeta>, r: Range) returns (found: bool)
    requires ValidFiles(files)
    requires disjointSorted ==> SortedLevel(files)
    ensures found <==> exists f :: f in files && Overlaps(f, r)
  {
    if !disjointSorted {
      for i := 0 to |files|
        invariant forall j :: 0 <= j < i ==> !Overlaps(files[j], r)
      {
        if AfterFile(r.lo, files[i]) || BeforeFile(r.hi, files[i]) {
        } else {
          assert Overlaps(files[i], r);
          return true;
        }
      }
      return false;
    }
    var index := 0;
    if r.lo.Some? {
      index := FindFile(files, InternalKey(r.lo.value, MAX_SEQUENCE, Value));
      forall i | 0 <= i < |files| ensures i < index <==> AfterFile(r.lo, files[i]) {
        RangeOfFile(files[i]);
      }
    }
    if index >= |files| {
      return false;
    }
    found := !BeforeFile(r.hi, files[index]);
    if found {
      assert Overlaps(files[index], r);
    } else {
      forall i | index <= i < |files| ensures BeforeFile(r.hi, files[i]) {
        LargestIncreases(files, index, i);
      }
    }
  }

  // ---------- GetOverlappingInputs ----------

  /** The files of a level that overlap a range, in level order. */
  function Selected(files: seq<FileMeta>, r: Range): (sel: seq<FileMeta>)
    ensures forall f :: f in sel <==> f in files && Overlaps(f, r)
  {
    if files == [] then []
    else if Overlaps(files[0], r) then [files[0]] + Selected(files[1..], r)
    else Selected(files[1..], r)
  }

  /** Selection keeps the order of a sorted level and leaves no gap in it. */
  lemma {:induction false} SelectedSorted(files: seq<FileMeta>, r: Range)
    requires SortedLevel(files)
    ensures SortedLevel(Selected(files, r))
  {
    if files != [] {
      SelectedSorted(files[1..], r);
      forall g | g in Selected(files[1..], r) ensures Less(files[0].largest, g.smallest) {
        var j :| 0 <= j < |files[1..]| && files[1..][j] == g;
        assert files[j + 1] == g;
      }
    }
  }

  lemma {:induction false} SelectedDistinct(files: seq<FileMeta>, r: Range)
    requires Distinct(files)
    ensures Distinct(Selected(files, r))
  {
    if files != [] {
      SelectedDistinct(files[1..], r);
      forall g | g in Selected(files[1..], r) ensures files[0] != g {
        var j :| 0 <= j < |files[1..]| && files[1..][j] == g;
        assert files[j + 1] == g;
      }
    }
  }

  lemma {:induction false} SelectedAppend(a: seq<FileMeta>, b: seq<FileMeta>, r: Range)
    ensures Selected(a + b, r) == Selected(a, r) + Selected(b, r)
  {
    if a == [] {
      assert a + b == b;
    } else {
      assert (a + b)[1..] == a[1..] + b;
      SelectedAppend(a[1..], b, r);
    }
  }

  /** `r` lies within `wide`. */
  predicate Within(r: Range, wide: Range) {
    && (wide.lo.Some? ==> r.lo.Some? && wide.lo.value <= r.lo.value)
    && (wide.hi.Some? ==> r.hi.Some? && r.hi.value <= wide.hi.value)
  }

  predicate Inside(f: FileMeta, r: Range) {
    && (r.lo.Some? ==> r.lo.value <= f.smallest.user)
    && (r.hi.Some? ==> f.largest.user <= r.hi.value)
  }

  /** No file of the level crosses the border of the range. */
  ghost predicate Closed(files: seq<FileMeta>, r: Range) {
    forall f :: f in files && Overlaps(f, r) ==> Inside(f, r)
  }

  /** `r` is the least closed range that contains `start`. */
  ghost predicate LeastClosed(files: seq<FileMeta>, start: Range, r: Range) {
    && Within(start, r)
    && Closed(files, r)
    && Forced(files, start, r)
  }

  /** Every closed range around `start` contains `r`. */
  ghost predicate Forced(files: seq<FileMeta>, start: Range, r: Range) {
    forall wide: Range :: Within(start, wide) && Closed(files, wide) ==> Within(r, wide)
  }

  /** State of the scan: the first `i` files have been searched for the range `r`. */
  ghost predicate Scanned(levelZero: bool, files: seq<FileMeta>, start: Range, r: Range, i: nat,
                          inputs: seq<FileMeta>) {
    && i <= |files|
    && inputs == Selected(files[..i], r)
    && (if levelZero then Closed(files[..i], r) else r == start)
    && Within(start, r)
    && Forced(files, start, r)
  }

  ghost function StartBelow(files: seq<FileMeta>, lo: Option<UserKey>): set<FileMeta> {
    set f | f in files && lo.Some? && f.smallest.user < lo.value
  }

  ghost function EndAbove(files: seq<FileMeta>, hi: Option<UserKey>): set<FileMeta> {
    set f | f in files && hi.Some? && f.largest.user > hi.value
  }

  /** All files of a level overlapping [start]; in level 0 the range grows with every file that
      sticks out of it, restarting the scan, until it is closed. */
  method GetOverlappingInputs(levelZero: bool, files: seq<FileMeta>, start: Range)
    returns (inputs: seq<FileMeta>, ghost r: Range)
    requires ValidFiles(files)
    ensures inputs == Selected(files, r)
    ensures !levelZero ==> r == start
    ensures levelZero ==> LeastClosed(files, start, r)
  {
    inputs := [];
    var lo, hi := start.lo, start.hi;
    var i := 0;
    while i < |files|
      invariant Scanned(levelZero, files, start, Range(lo, hi), i, inputs)
      decreases StartBelow(files, lo), EndAbove(files, hi), |files| - i
    {
      var f := files[i];
      ScanStep(levelZero, files, start, Range(lo, hi), i, inputs);
      i := i + 1;
      if AfterFile(lo, f) {
      } else if BeforeFile(hi, f) {
      } else {
        inputs := inputs + [f];
        if levelZero {
          if lo.Some? && f.smallest.user < lo.value {
            RestartBelow(files, start, Range(lo, hi), f);
            lo := Some(f.smallest.user);
            inputs := [];
            i := 0;
          } else if hi.Some? && f.largest.user > hi.value {
            RestartAbove(files, start, Range(lo, hi), f);
            hi := Some(f.largest.user);
            inputs := [];
            i := 0;
          }
        }
      }
    }
    assert files[..i] == files;
    r := Range(lo, hi);
  }

  /** One file of the scan: skipped when apart from the range, taken when it fits. */
  lemma ScanStep(levelZero: bool, files: seq<FileMeta>, start: Range, r: Range, i: nat, inputs: seq<FileMeta>)
    requires Scanned(levelZero, files, start, r, i, inputs) && i < |files|
    ensures !Overlaps(files[i], r) ==> Scanned(levelZero, files, start, r, i + 1, inputs)
    ensures Overlaps(files[i], r) && (levelZero ==> Inside(files[i], r)) ==>
              Scanned(levelZero, files, start, r, i + 1, inputs + [files[i]])
  {
    assert files[..i + 1] == files[..i] + [files[i]];
    SelectedAppend(files[..i], [files[i]], r);
  }

  lemma RestartBelow(files: seq<FileMeta>, start: Range, r: Range, f: FileMeta)
    requires ValidFiles(files) && f in files && Overlaps(f, r)
    requires Within(start, r) && Forced(files, start, r)
    requires r.lo.Some? && f.smallest.user < r.lo.value
    ensures Scanned(true, files, start, r.(lo := Some(f.smallest.user)), 0, [])
    ensures StartBelow(files, Some(f.smallest.user)) < StartBelow(files, r.lo)
  {
    StickingOut(files, start, r, f);
    assert f in StartBelow(files, r.lo) && f !in StartBelow(files, Some(f.smallest.user));
    assert StartBelow(files, Some(f.smallest.user)) <= StartBelow(files, r.lo);
  }

  lemma RestartAbove(files: seq<FileMeta>, start: Range, r: Range, f: FileMeta)
    requires ValidFiles(files) && f in files && Overlaps(f, r)
    requires Within(start, r) && Forced(files, start, r)
    requires r.hi.Some? && f.largest.user > r.hi.value
    ensures Scanned(true, files, start, r.(hi := Some(f.largest.user)), 0, [])
    ensures EndAbove(files, Some(f.largest.user)) < EndAbove(files, r.hi)
  {
    StickingOut(files, start, r, f);
    assert f in EndAbove(files, r.hi) && f !in EndAbove(files, Some(f.largest.user));
    assert EndAbove(files, Some(f.largest.user)) <= EndAbove(files, r.hi);
  }

  /** A file that overlaps a forced range lies inside every closed range around the start. */
  lemma StickingOut(files: seq<FileMeta>, start: Range, r: Range, f: FileMeta)
    requires ValidFiles(files) && f in files && Overlaps(f, r)
    requires Forced(files, start, r)
    ensures forall wide: Range :: Within(start, wide) && Closed(files, wide) ==> Inside(f, wide)
  {
    RangeOfFile(f);
    forall wide: Range | Within(start, wide) && Closed(files, wide) ensures Inside(f, wide) {
      assert Within(r, wide);
      assert Overlaps(f, wide);
    }
  }

  // ---------- boundary files ----------

  ghost predicate IsLargestKey(files: seq<FileMeta>, k: InternalKey) {
    && (exists f :: f in files && f.largest == k)
    && forall f :: f in files ==> LessEq(f.largest, k)
  }

  ghost predicate IsSmallestKey(files: seq<FileMeta>, k: InternalKey) {
    && (exists f :: f in files && f.smallest == k)
    && forall f :: f in files ==> LessEq(k, f.smallest)
  }

  /** The largest key of a vector of files, if there are any. */
  method FindLargestKey(files: seq<FileMeta>) returns (k: Option<InternalKey>)
    ensures k.None? <==> files == []
    ensures k.Some? ==> IsLargestKey(files, k.value)
  {
    if files == [] {
      return None;
    }
    var largest := files[0].largest;
    for i := 1 to |files|
      invariant exists f :: f in files && f.largest == largest
      invariant forall j :: 0 <= j < i ==> LessEq(files[j].largest, largest)
    {
      LessTotal(files[i].largest, largest);
      if Less(largest, files[i].largest) {
        largest := files[i].largest;
      }
    }
    return Some(largest);
  }

  /** `f` starts in the user key where the chosen files end, after their end. */
  predicate IsBoundary(f: FileMeta, largest: InternalKey) {
    Less(largest, f.smallest) && f.smallest.user == largest.user
  }

  /** The boundary file with the smallest start, if there is a boundary file. */
  method FindSmallestBoundaryFile(levelFiles: seq<FileMeta>, largest: InternalKey) returns (best: Option<FileMeta>)
    ensures best.None? <==> forall f :: f in levelFiles ==> !IsBoundary(f, largest)
    ensures best.Some? ==> best.value in levelFiles && IsBoundary(best.value, largest)
    ensures best.Some? ==> forall f :: f in levelFiles && IsBoundary(f, largest) ==>
              LessEq(best.value.smallest, f.smallest)
  {
    best := None;
    for i := 0 to |levelFiles|
      invariant best.None? <==> forall j :: 0 <= j < i ==> !IsBoundary(levelFiles[j], largest)
      invariant best.Some? ==> best.value in levelFiles && IsBoundary(best.value, largest)
      invariant best.Some? ==> forall j :: 0 <= j < i && IsBoundary(levelFiles[j], largest) ==>
                  LessEq(best.value.smallest, levelFiles[j].smallest)
    {
      var f := levelFiles[i];
      if IsBoundary(f, largest) {
        if best.None? || Less(f.smallest, best.value.smallest) {
          best := Some(f);
        } else {
          LessTotal(f.smallest, best.value.smallest);
        }
      }
    }
  }

  /** The chosen files have no gap: whatever lies between two of them is chosen too. */
  ghost predicate Contiguous(levelFiles: seq<FileMeta>, chosen: seq<FileMeta>) {
    forall f, g, h | f in chosen && h in chosen && g in levelFiles ::
      Less(f.largest, g.smallest) && Less(g.largest, h.smallest) ==> g in chosen
  }

  /** No file left out of the level starts in the user key where the chosen files end. */
  ghost predicate NoBoundaryLeft(levelFiles: seq<FileMeta>, chosen: seq<FileMeta>) {
    forall k, f :: IsLargestKey(chosen, k) && f in levelFiles ==> !IsBoundary(f, k)
  }

  /** The files of the level that start after `k`. */
  ghost function Ahead(levelFiles: seq<FileMeta>, k: InternalKey): set<FileMeta> {
    set f | f in levelFiles && Less(k, f.smallest)
  }

  /** `r` extends the chosen files by files of the level, without a gap, and only if boundary files are left. */
  ghost predicate Extension(levelFiles: seq<FileMeta>, chosen: seq<FileMeta>, r: seq<FileMeta>) {
    && chosen <= r
    && (forall f :: f in r ==> f in levelFiles)
    && (NoBoundaryLeft(levelFiles, chosen) ==> r == chosen)
    && (SortedLevel(levelFiles) && Contiguous(levelFiles, chosen) ==> Contiguous(levelFiles, r))
    && (SortedLevel(chosen) ==> SortedLevel(r))
  }

  /** `b` is a boundary file behind `k`, and starts first of those. */
  ghost predicate FirstBoundary(levelFiles: seq<FileMeta>, k: InternalKey, b: FileMeta) {
    IsBoundary(b, k) && forall f :: f in levelFiles && IsBoundary(f, k) ==> LessEq(b.smallest, f.smallest)
  }

  /** Each added file was the first boundary file behind those in front of it. */
  ghost predicate BoundariesAdded(levelFiles: seq<FileMeta>, chosen: seq<FileMeta>, r: seq<FileMeta>) {
    forall i, k :: |chosen| <= i < |r| && IsLargestKey(r[..i], k) ==> FirstBoundary(levelFiles, k, r[i])
  }

  lemma OneMoreBoundary(levelFiles: seq<FileMeta>, chosen: seq<FileMeta>, r: seq<FileMeta>, largest: InternalKey,
                        b: FileMeta)
    requires BoundariesAdded(levelFiles, chosen, r) && IsLargestKey(r, largest) && FirstBoundary(levelFiles, largest, b)
    ensures BoundariesAdded(levelFiles, chosen, r + [b])
  {
    hide FirstBoundary, Less;
    var more := r + [b];
    forall i, k | |chosen| <= i < |more| && IsLargestKey(more[..i], k) ensures FirstBoundary(levelFiles, k, more[i]) {
      if i < |r| {
        assert more[..i] == r[..i];
      } else {
        assert more[..i] == r;
        LessTotal(k, largest);
      }
    }
  }

  /** Extends the chosen files with boundary files until none is left. */
  method AddBoundaryInputs(levelFiles: seq<FileMeta>, chosen: seq<FileMeta>) returns (r: seq<FileMeta>)
    requires ValidFiles(levelFiles)
    requires forall f :: f in chosen ==> f in levelFiles
    ensures Extension(levelFiles, chosen, r)
    ensures BoundariesAdded(levelFiles, chosen, r) && NoBoundaryLeft(levelFiles, r)
  {
    r := chosen;
    var start := FindLargestKey(chosen);
    if start.None? {
      return;
    }
    var largest := start.value;
    var searching := true;
    while searching
      invariant Extension(levelFiles, chosen, r)
      invariant BoundariesAdded(levelFiles, chosen, r) && IsLargestKey(r, largest)
      invariant !searching ==> forall f :: f in levelFiles ==> !IsBoundary(f, largest)
      decreases Ahead(levelFiles, largest), searching
    {
      var next := FindSmallestBoundaryFile(levelFiles, largest);
      if next.Some? {
        AddOneBoundary(levelFiles, chosen, r, largest, next.value);
        OneMoreBoundary(levelFiles, chosen, r, largest, next.value);
        r := r + [next.value];
        largest := next.value.largest;
      } else {
        searching := false;
      }
    }
    forall k | IsLargestKey(r, k) ensures k == largest {
      LessTotal(k, largest);
    }
  }

  lemma AddOneBoundary(levelFiles: seq<FileMeta>, chosen: seq<FileMeta>, r: seq<FileMeta>, largest: InternalKey,
                       b: FileMeta)
    requires ValidFiles(levelFiles)
    requires Extension(levelFiles, chosen, r) && IsLargestKey(r, largest)
    requires b in levelFiles && IsBoundary(b, largest)
    requires forall f :: f in levelFiles && IsBoundary(f, largest) ==> LessEq(b.smallest, f.smallest)
    ensures Extension(levelFiles, chosen, r + [b]) && IsLargestKey(r + [b], b.largest)
    ensures Ahead(levelFiles, b.largest) < Ahead(levelFiles, largest)
  {
    RangeOfFile(b);
    BoundaryIsLast(r, largest, b);
    assert SortedLevel(r) ==> SortedLevel(r + [b]);
    if SortedLevel(levelFiles) && Contiguous(levelFiles, r) {
      BoundaryKeepsContiguous(levelFiles, r, largest, b);
    }
    AheadShrinks(levelFiles, largest, b);
  }

  lemma BoundaryIsLast(r: seq<FileMeta>, largest: InternalKey, b: FileMeta)
    requires IsLargestKey(r, largest) && IsBoundary(b, largest) && LessEq(b.smallest, b.largest)
    ensures IsLargestKey(r + [b], b.largest)
    ensures forall f :: f in r ==> Less(f.largest, b.smallest)
  {
    forall f | f in r ensures Less(f.largest, b.smallest) && LessEq(f.largest, b.largest) {
      assert LessEq(f.largest, largest);
    }
    assert (r + [b])[|r|] == b;
  }

  lemma AheadShrinks(levelFiles: seq<FileMeta>, largest: InternalKey, b: FileMeta)
    requires b in levelFiles && Less(largest, b.smallest) && LessEq(b.smallest, b.largest)
    ensures Ahead(levelFiles, b.largest) < Ahead(levelFiles, largest)
  {
    assert b in Ahead(levelFiles, largest) && b !in Ahead(levelFiles, b.largest);
    assert Ahead(levelFiles, b.largest) <= Ahead(levelFiles, largest);
  }

  lemma BoundaryKeepsContiguous(levelFiles: seq<FileMeta>, r: seq<FileMeta>, largest: InternalKey, b: FileMeta)
    requires ValidFiles(levelFiles) && SortedLevel(levelFiles) && Contiguous(levelFiles, r)
    requires IsLargestKey(r, largest) && (forall f :: f in r ==> f in levelFiles)
    requires b in levelFiles && IsBoundary(b, largest)
    requires forall f :: f in levelFiles && IsBoundary(f, largest) ==> LessEq(b.smallest, f.smallest)
    ensures Contiguous(levelFiles, r + [b])
  {
    forall f, g, h | f in r + [b] && h in r + [b] && g in levelFiles && Less(f.largest, g.smallest)
      && Less(g.largest, h.smallest)
      ensures g in r + [b]
    {
      if f in r {
        if h in r {
          assert g in r;
        } else {
          GapBeforeBoundary(levelFiles, r, largest, b, f, g);
        }
      } else {
        NothingAfterBoundary(r, largest, b, g, h);
      }
    }
  }

  lemma NothingAfterBoundary(r: seq<FileMeta>, largest: InternalKey, b: FileMeta, g: FileMeta, h: FileMeta)
    requires IsLargestKey(r, largest) && IsBoundary(b, largest) && ValidFile(b) && ValidFile(g)
    requires h in r + [b] && ValidFile(h)
    ensures !(Less(b.largest, g.smallest) && Less(g.largest, h.smallest))
  {
    RangeOfFile(b);
    RangeOfFile(g);
    RangeOfFile(h);
    BoundaryIsLast(r, largest, b);
  }

  /** A file between a chosen one and the smallest boundary file is chosen. */
  lemma GapBeforeBoundary(levelFiles: seq<FileMeta>, r: seq<FileMeta>, largest: InternalKey, b: FileMeta, f: FileMeta,
                          g: FileMeta)
    requires ValidFiles(levelFiles) && SortedLevel(levelFiles) && Contiguous(levelFiles, r)
    requires IsLargestKey(r, largest) && (forall h :: h in r ==> h in levelFiles)
    requires IsBoundary(b, largest)
    requires forall h :: h in levelFiles && IsBoundary(h, largest) ==> LessEq(b.smallest, h.smallest)
    requires f in r && g in levelFiles && Less(f.largest, g.smallest) && Less(g.largest, b.smallest)
    ensures g in r
  {
    RangeOfFile(g);
    var top :| top in r && top.largest == largest;
    SortedOrApart(levelFiles, top, g);
    assert !IsBoundary(g, largest);
    assert !Less(largest, g.smallest);
  }

  lemma SelectedContiguous(files: seq<FileMeta>, r: Range)
    requires ValidFiles(files)
    ensures Contiguous(files, Selected(files, r))
  {
    forall f, g, h | f in Selected(files, r) && h in Selected(files, r) && g in files
      && Less(f.largest, g.smallest) && Less(g.largest, h.smallest)
      ensures Overlaps(g, r)
    {
      RangeOfFile(g);
    }
  }

  /** Two files of a sorted level are equal or one lies wholly before the other. */
  lemma SortedOrApart(files: seq<FileMeta>, f: FileMeta, g: FileMeta)
    requires SortedLevel(files) && f in files && g in files
    ensures f == g || Less(f.largest, g.smallest) || Less(g.largest, f.smallest)
  {
    var i :| 0 <= i < |files| && files[i] == f;
    var j :| 0 <= j < |files| && files[j] == g;
  }

  // ---------- ranges and sizes of file vectors ----------

  /** The smallest and the largest key of a non-empty vector of files. */
  method GetRange(files: seq<FileMeta>) returns (smallest: InternalKey, largest: InternalKey)
    requires files != []
    ensures IsSmallestKey(files, smallest) && IsLargestKey(files, largest)
  {
    smallest, largest := files[0].smallest, files[0].largest;
    for i := 1 to |files|
      invariant exists f :: f in files && f.smallest == smallest
      invariant exists f :: f in files && f.largest == largest
      invariant forall j :: 0 <= j < i ==> LessEq(smallest, files[j].smallest) && LessEq(files[j].largest, largest)
    {
      LessTotal(files[i].smallest, smallest);
      LessTotal(files[i].largest, largest);
      if Less(files[i].smallest, smallest) { smallest := files[i].smallest; }
      if Less(largest, files[i].largest) { largest := files[i].largest; }
    }
  }

  function TotalFileSize(files: seq<FileMeta>): nat {
    if files == [] then 0 else files[0].size + TotalFileSize(files[1..])
  }
}
