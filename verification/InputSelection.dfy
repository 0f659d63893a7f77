/** Choosing what a compaction may move (db/version_set.cc: PickCompaction, CompactRange, SetupOtherInputs). */
module InputSelection {
  import opened InternalKeys
  import opened Meaning
  import opened Files
  import opened Versions

  predicate Apart(f: FileMeta, g: FileMeta) {
    f.largest.user < g.smallest.user || g.largest.user < f.smallest.user
  }

  /** What the entry points hand to SetupOtherInputs: a gap-free piece of a sorted level, or in
      level 0 a set of files apart from every file left out. */
  ghost predicate Pickable(level: nat, files: seq<FileMeta>, chosen: seq<FileMeta>) {
    && chosen != []
    && (forall f :: f in chosen ==> f in files)
    && (if level == 0 then Distinct(chosen) && forall f, g :: f in chosen && g in files && g !in chosen ==> Apart(f, g)
        else Contiguous(files, chosen) && SortedLevel(chosen))
  }

  /** The user-key range from the first to the last key of the files. */
  ghost predicate IsHull(files: seq<FileMeta>, r: Range) {
    && r.lo.Some? && r.hi.Some?
    && (forall f :: f in files ==> Inside(f, r))
    && (exists f :: f in files && f.smallest.user == r.lo.value)
    && (exists f :: f in files && f.largest.user == r.hi.value)
  }

  /** Every file of the level left out is newer than every chosen one, key by key. */
  ghost predicate LeftOutNewer(files: seq<FileMeta>, chosen: seq<FileMeta>) {
    forall f, g :: f in chosen && g in files && g !in chosen ==> Newer(g, f)
  }

  /** A selection that may be compacted from `level` to the next one. */
  ghost predicate Ready(v: Version, level: nat, in0: seq<FileMeta>, in1: seq<FileMeta>, hull: Range) {
    && |v| == NUM_LEVELS && level + 1 < NUM_LEVELS
    && in0 != []
    && (forall f :: f in in0 ==> f in v[level])
    && LeftOutNewer(v[level], in0)
    && (if level == 0 then Distinct(in0) else SortedLevel(in0))
    && IsHull(in0, hull)
    && in1 == Selected(v[level + 1], hull)
  }

  /** The files that overlap a range; in level 0 with all that overlap those, and so on. */
  ghost predicate AllOverlapping(level: nat, files: seq<FileMeta>, range: Range, chosen: seq<FileMeta>) {
    exists r :: (if level == 0 then LeastClosed(files, range, r) else r == range) && chosen == Selected(files, r)
  }

  /** The file picked, and in level 0 all it overlaps. */
  ghost predicate StartsFrom(level: nat, files: seq<FileMeta>, picked: FileMeta, chosen: seq<FileMeta>) {
    if level > 0 then chosen == [picked]
    else AllOverlapping(0, files, Range(Some(picked.smallest.user), Some(picked.largest.user)), chosen)
  }

  /** The entry of size- and seek-triggered compactions: one file, with all it overlaps in level 0. */
  method PickCompaction(v: Version, level: nat, picked: FileMeta) returns (chosen: seq<FileMeta>)
    requires VersionOk(v) && level + 1 < NUM_LEVELS && picked in v[level]
    ensures Pickable(level, v[level], chosen) && picked in chosen
    ensures StartsFrom(level, v[level], picked, chosen)
  {
    chosen := [picked];
    if level == 0 {
      ghost var r;
      chosen, r := GetOverlappingInputs(true, v[0], Range(Some(picked.smallest.user), Some(picked.largest.user)));
      RangeOfFile(picked);
      assert Overlaps(picked, r);
      ClosedIsPickable(v[0], r);
      SelectedDistinct(v[0], r);
    } else {
      forall g | g in v[level] ensures !(Less(picked.largest, g.smallest) && Less(g.largest, picked.smallest)) {
        RangeOfFile(picked);
        RangeOfFile(g);
      }
    }
  }

  lemma ClosedIsPickable(files: seq<FileMeta>, r: Range)
    requires ValidFiles(files) && Closed(files, r)
    ensures forall f, g :: f in Selected(files, r) && g in files && g !in Selected(files, r) ==> Apart(f, g)
  {
    forall f, g | f in Selected(files, r) && g in files && g !in Selected(files, r) ensures Apart(f, g) {
      assert Inside(f, r) && !Overlaps(g, r);
    }
  }

  /** As many of the first files as it takes to reach the size limit. */
  method CutAtSize(files: seq<FileMeta>, limit: nat) returns (chosen: seq<FileMeta>)
    requires files != []
    ensures chosen != [] && chosen <= files
    ensures chosen != files ==> TotalFileSize(chosen) >= limit
    ensures |chosen| > 1 ==> TotalFileSize(chosen[..|chosen| - 1]) < limit
  {
    var total := 0;
    var i := 0;
    while i < |files|
      invariant 0 <= i <= |files| && total == TotalFileSize(files[..i]) && (i > 0 ==> total < limit)
    {
      SizeLast(files[..i + 1]);
      assert files[..i + 1][..i] == files[..i];
      total := total + files[i].size;
      i := i + 1;
      if total >= limit {
        chosen := files[..i];
        return;
      }
    }
    chosen := files;
    assert files[..i] == files;
    SizeLast(files);
  }

  lemma {:induction false} SizeLast(files: seq<FileMeta>)
    requires files != []
    ensures TotalFileSize(files) == TotalFileSize(files[..|files| - 1]) + files[|files| - 1].size
  {
    if |files| > 1 {
      SizeLast(files[1..]);
      assert files[1..][..|files| - 2] == files[..|files| - 1][1..];
    }
  }

  /** Everything that overlaps a range; above level 0 only the first of those files that reach the limit together. */
  ghost predicate CutToLimit(level: nat, files: seq<FileMeta>, range: Range, limit: nat, chosen: seq<FileMeta>) {
    if level == 0 then AllOverlapping(0, files, range, chosen)
    else
      && chosen <= Selected(files, range)
      && (chosen != Selected(files, range) ==> chosen != [] && TotalFileSize(chosen) >= limit)
      && (|chosen| > 1 ==> TotalFileSize(chosen[..|chosen| - 1]) < limit)
  }

  /** The entry of manual compactions: everything in a range, above level 0 cut off at a size. */
  method CompactRange(v: Version, level: nat, range: Range, limit: nat) returns (chosen: seq<FileMeta>)
    requires VersionOk(v) && level + 1 < NUM_LEVELS
    ensures chosen == [] <==> forall f :: f in v[level] ==> !Overlaps(f, range)
    ensures chosen != [] ==> Pickable(level, v[level], chosen)
    ensures CutToLimit(level, v[level], range, limit, chosen)
  {
    hide Less, LessEq, Newer, Functional, VersionEntries, LevelOrder, UniqueNumbers, TotalFileSize, ValidFile, Overlaps;
    hide Within, Closed;
    ghost var r;
    chosen, r := GetOverlappingInputs(level == 0, v[level], range);
    NothingSelected(v[level], range, r);
    if chosen == [] {
    } else if level == 0 {
      ClosedIsPickable(v[0], r);
      SelectedDistinct(v[0], r);
    } else {
      var all := chosen;
      SelectedContiguous(v[level], r);
      SelectedSorted(v[level], r);
      chosen := CutAtSize(all, limit);
      PrefixContiguous(v[level], all, chosen);
    }
  }

  lemma NothingSelected(files: seq<FileMeta>, start: Range, r: Range)
    requires r == start || LeastClosed(files, start, r)
    ensures Selected(files, r) == [] <==> forall f :: f in files ==> !Overlaps(f, start)
  {
    if forall f :: f in files ==> !Overlaps(f, start) {
      if r != start {
        RangeClosedAlready(files, start, r);
      } else if Selected(files, r) != [] {
        assert Selected(files, r)[0] in Selected(files, r);
      }
    } else {
      var f :| f in files && Overlaps(f, start);
      assert f in Selected(files, r);
    }
  }

  /** A range that no file overlaps is closed, so the least closed range is the range itself. */
  lemma RangeClosedAlready(files: seq<FileMeta>, range: Range, r: Range)
    requires LeastClosed(files, range, r)
    requires forall f :: f in files ==> !Overlaps(f, range)
    ensures Selected(files, r) == []
  {
    assert Within(range, range) && Closed(files, range);
    assert Within(r, range);
    if Selected(files, r) != [] {
      var f := Selected(files, r)[0];
      assert f in Selected(files, r);
      assert Overlaps(f, range);
    }
  }

  lemma PrefixContiguous(files: seq<FileMeta>, all: seq<FileMeta>, prefix: seq<FileMeta>)
    requires ValidFiles(files) && SortedLevel(files)
    requires Contiguous(files, all) && SortedLevel(all) && (forall f :: f in all ==> f in files)
    requires prefix <= all
    ensures Contiguous(files, prefix) && SortedLevel(prefix) && forall f :: f in prefix ==> f in files
  {
    forall f, g, h | f in prefix && h in prefix && g in files && Less(f.largest, g.smallest)
      && Less(g.largest, h.smallest)
      ensures g in prefix
    {
      assert f in all && h in all;
      assert g in all;
      EarlierInPrefix(all, prefix, g, h);
    }
  }

  lemma EarlierInPrefix(all: seq<FileMeta>, prefix: seq<FileMeta>, g: FileMeta, h: FileMeta)
    requires SortedLevel(all) && prefix <= all && g in all && h in prefix
    requires ValidFile(g) && ValidFile(h) && Less(g.largest, h.smallest)
    ensures g in prefix
  {
    var i :| 0 <= i < |all| && all[i] == g;
    var j :| 0 <= j < |prefix| && prefix[j] == h;
    RangeOfFile(g);
    RangeOfFile(h);
    assert all[j] == h;
    assert i < j;
    assert prefix[i] == g;
  }

  // ---------- SetupOtherInputs ----------

  /** What must be shown of the files chosen at the level, by the kind of level. */
  lemma ChosenLeaveNewer(v: Version, level: nat, chosen: seq<FileMeta>)
    requires VersionOk(v) && level < NUM_LEVELS
    requires Pickable(level, v[level], chosen) && NoBoundaryLeft(v[level], chosen)
    ensures LeftOutNewer(v[level], chosen)
  {
    forall f, g | f in chosen && g in v[level] && g !in chosen ensures Newer(g, f) {
      if level == 0 || Apart(f, g) {
        ApartIsNewer(f, g);
      } else {
        SortedOrApart(v[level], f, g);
        if Less(f.largest, g.smallest) {
          BoundaryLeftOut(v[level], chosen, f, g);
          assert false;
        } else {
          EarlierIsNewer(v, level, g, f);
        }
      }
    }
  }

  /** In a sorted level the earlier file holds the newer entries of a shared user key. */
  lemma EarlierIsNewer(v: Version, level: nat, g: FileMeta, f: FileMeta)
    requires VersionOk(v) && 0 < level < NUM_LEVELS
    requires f in v[level] && g in v[level] && Less(g.largest, f.smallest)
    ensures Newer(g, f)
  {
    hide LevelOrder, UniqueNumbers, SortedLevel, Sorted, Bounded;
    forall x, y | x in g.entries && y in f.entries && x.key.user == y.key.user ensures x.key.sequence > y.key.sequence {
      EntryInRange(g, x);
      EntryInRange(f, y);
      assert InLevel(v, level, f) && InLevel(v, level, g);
      InVersion(v, x);
      InVersion(v, y);
      assert Less(x.key, y.key);
      assert x.key.sequence == y.key.sequence ==> x == y;
    }
  }

  /** A left-out file that continues the user key where a chosen file ends is a boundary file. */
  lemma BoundaryLeftOut(files: seq<FileMeta>, chosen: seq<FileMeta>, f: FileMeta, g: FileMeta)
    requires ValidFiles(files) && SortedLevel(files) && Contiguous(files, chosen)
    requires forall h :: h in chosen ==> h in files
    requires f in chosen && g in files && g !in chosen
    requires Less(f.largest, g.smallest) && !Apart(f, g)
    ensures !NoBoundaryLeft(files, chosen)
  {
    var k := LargestOf(chosen);
    var top :| top in chosen && top.largest == k;
    RangeOfFile(f);
    RangeOfFile(g);
    SortedOrApart(files, top, g);
    assert !Less(g.largest, top.smallest);
    assert Less(k, g.smallest);
    assert IsBoundary(g, k);
  }

  ghost function LargestOf(files: seq<FileMeta>): (k: InternalKey)
    requires files != []
    ensures IsLargestKey(files, k)
  {
    if |files| == 1 then files[0].largest
    else
      var k := LargestOf(files[1..]);
      LessTotal(k, files[0].largest);
      if Less(k, files[0].largest) then files[0].largest else k
  }

  /** In level 0 the chosen files are apart from the rest, so no boundary file is left. */
  lemma ApartHasNoBoundary(files: seq<FileMeta>, chosen: seq<FileMeta>)
    requires ValidFiles(files) && Pickable(0, files, chosen)
    ensures NoBoundaryLeft(files, chosen)
  {
    forall k, b | IsLargestKey(chosen, k) && b in files ensures !IsBoundary(b, k) {
      var top :| top in chosen && top.largest == k;
      RangeOfFile(b);
      RangeOfFile(top);
      if b in chosen {
        assert LessEq(b.largest, k);
      } else {
        assert Apart(top, b);
      }
    }
  }

  /** The chosen files and behind them one boundary file after the other, until none is left. */
  ghost predicate BoundaryClosed(files: seq<FileMeta>, chosen: seq<FileMeta>, in0: seq<FileMeta>) {
    chosen <= in0 && BoundariesAdded(files, chosen, in0) && NoBoundaryLeft(files, in0)
  }

  /** Boundary files first, then the resulting level selection is fit to move. */
  method CloseOverBoundary(v: Version, level: nat, chosen: seq<FileMeta>) returns (in0: seq<FileMeta>)
    requires VersionOk(v) && level < NUM_LEVELS && Pickable(level, v[level], chosen)
    ensures in0 != [] && (forall f :: f in in0 ==> f in v[level])
    ensures BoundaryClosed(v[level], chosen, in0)
    ensures LeftOutNewer(v[level], in0)
    ensures if level == 0 then Distinct(in0) else SortedLevel(in0)
  {
    in0 := AddBoundaryInputs(v[level], chosen);
    if level == 0 {
      ApartHasNoBoundary(v[0], chosen);
    }
    ChosenLeaveNewer(v, level, in0);
  }

  /** The user-key hull of some files, from their key range. */
  method HullOf(files: seq<FileMeta>) returns (r: Range)
    requires files != [] && ValidFiles(files)
    ensures IsHull(files, r)
  {
    var smallest, largest := GetRange(files);
    r := Range(Some(smallest.user), Some(largest.user));
  }

  /** The files of the level over the whole range of the inputs, closed over boundary files. */
  ghost predicate Expanded(v: Version, level: nat, in0: seq<FileMeta>, in1: seq<FileMeta>, expanded0: seq<FileMeta>)
    requires level < |v|
  {
    exists all, picked :: && IsHull(in0 + in1, all) && AllOverlapping(level, v[level], all, picked)
                          && BoundaryClosed(v[level], picked, expanded0)
  }

  /** The inputs are expanded if that takes more files of the level, as many of the next one, and stays below the byte
      limit; and otherwise stay as they are. */
  ghost predicate GrownIfFit(v: Version, level: nat, in0: seq<FileMeta>, in1: seq<FileMeta>, byteLimit: nat,
                             out0: seq<FileMeta>, out1: seq<FileMeta>)
    requires level + 1 < |v|
  {
    exists expanded0, hull ::
      && Expanded(v, level, in0, in1, expanded0) && IsHull(expanded0, hull)
      && var expanded1 := Selected(v[level + 1], hull);
         (out0, out1) == if |expanded0| > |in0| && TotalFileSize(in1) + TotalFileSize(expanded0) < byteLimit
                            && |expanded1| == |in1|
                         then (expanded0, expanded1) else (in0, in1)
  }

  /** What a selection is completed to: boundary files of the level, the overlapping files of the next level, and, if
      that fits, as many more files of the level as do not need more of the next. */
  ghost predicate CompletedTo(v: Version, level: nat, chosen: seq<FileMeta>, byteLimit: nat, out0: seq<FileMeta>,
                              out1: seq<FileMeta>)
    requires level + 1 < |v|
  {
    exists in0, hull ::
      && BoundaryClosed(v[level], chosen, in0) && IsHull(in0, hull)
      && var in1 := Selected(v[level + 1], hull);
         if in1 == [] then (out0, out1) == (in0, in1) else GrownIfFit(v, level, in0, in1, byteLimit, out0, out1)
  }

  /** Completes a selection: boundary files of the level, the overlapping files of the next level, and,
      if that fits in `byteLimit`, as many more files of the level as do not need more of the next. */
  method SetupOtherInputs(v: Version, level: nat, chosen: seq<FileMeta>, byteLimit: nat)
    returns (in0: seq<FileMeta>, in1: seq<FileMeta>, hull: Range)
    requires VersionOk(v) && level + 1 < NUM_LEVELS && Pickable(level, v[level], chosen)
    ensures Ready(v, level, in0, in1, hull)
    ensures forall f :: f in chosen ==> f in in0
    ensures CompletedTo(v, level, chosen, byteLimit, in0, in1)
  {
    hide Pickable, LeftOutNewer, SortedLevel, Distinct, IsHull, BoundariesAdded, NoBoundaryLeft, GrownIfFit;
    in0 := CloseOverBoundary(v, level, chosen);
    hull := HullOf(in0);
    ghost var r;
    in1, r := GetOverlappingInputs(false, v[level + 1], hull);
    assert BoundaryClosed(v[level], chosen, in0) && IsHull(in0, hull) && in1 == Selected(v[level + 1], hull);
    if in1 != [] {
      in0, in1, hull := GrowInputs(v, level, in0, in1, hull, byteLimit);
    }
  }

  /** Tries to take more files of the level without taking more of the next one. */
  method GrowInputs(v: Version, level: nat, in0: seq<FileMeta>, in1: seq<FileMeta>, hull: Range, byteLimit: nat)
    returns (out0: seq<FileMeta>, out1: seq<FileMeta>, outHull: Range)
    requires VersionOk(v) && Ready(v, level, in0, in1, hull)
    ensures Ready(v, level, out0, out1, outHull)
    ensures forall f :: f in in0 ==> f in out0
    ensures GrownIfFit(v, level, in0, in1, byteLimit, out0, out1)
  {
    hide Apart, Less, LessEq, Newer, Functional, VersionEntries, Contiguous, LeastClosed, LevelOrder, UniqueNumbers;
    hide TotalFileSize, SortedLevel, Distinct, LeftOutNewer, ValidFile, Pickable, IsHull;
    hide BoundariesAdded, NoBoundaryLeft;
    out0, out1, outHull := in0, in1, hull;
    InputsAreValid(v, level, in0, in1);
    var all := HullOf(in0 + in1);
    var expanded0;
    ghost var r;
    expanded0, r := GetOverlappingInputs(level == 0, v[level], all);
    ExpandedIsPickable(v, level, in0, in1, all, expanded0, r);
    ghost var picked := expanded0;
    assert AllOverlapping(level, v[level], all, picked);
    expanded0 := CloseOverBoundary(v, level, expanded0);
    assert Expanded(v, level, in0, in1, expanded0);
    var newHull := HullOf(expanded0);
    if |expanded0| > |in0| && TotalFileSize(in1) + TotalFileSize(expanded0) < byteLimit {
      var expanded1;
      expanded1, r := GetOverlappingInputs(false, v[level + 1], newHull);
      if |expanded1| == |in1| {
        out0, out1, outHull := expanded0, expanded1, newHull;
        forall f | f in in0 ensures f in out0 {
          assert f in picked;
        }
      }
    }
    assert Expanded(v, level, in0, in1, expanded0) && IsHull(expanded0, newHull);
  }

  lemma InputsAreValid(v: Version, level: nat, in0: seq<FileMeta>, in1: seq<FileMeta>)
    requires VersionOk(v) && level + 1 < NUM_LEVELS
    requires forall f :: f in in0 ==> f in v[level]
    requires forall f :: f in in1 ==> f in v[level + 1]
    ensures ValidFiles(in0 + in1)
  {
    assert forall f :: f in in0 + in1 ==> f in in0 || f in in1;
  }

  /** The files of the level within the whole compaction range are again pickable, and include the chosen. */
  lemma ExpandedIsPickable(v: Version, level: nat, in0: seq<FileMeta>, in1: seq<FileMeta>, all: Range,
                           expanded0: seq<FileMeta>, r: Range)
    requires VersionOk(v) && level + 1 < NUM_LEVELS
    requires in0 != [] && (forall f :: f in in0 ==> f in v[level])
    requires IsHull(in0 + in1, all)
    requires expanded0 == Selected(v[level], r)
    requires level > 0 ==> r == all
    requires level == 0 ==> LeastClosed(v[0], all, r)
    ensures Pickable(level, v[level], expanded0)
    ensures forall f :: f in in0 ==> f in expanded0
  {
    forall f | f in in0 ensures f in expanded0 {
      assert f in in0 + in1;
      RangeOfFile(f);
      assert Within(all, r) && Overlaps(f, all);
    }
    assert in0[0] in in0;
    if level == 0 {
      ClosedIsPickable(v[0], r);
      SelectedDistinct(v[0], r);
    } else {
      SelectedContiguous(v[level], r);
      SelectedSorted(v[level], r);
    }
  }
}
