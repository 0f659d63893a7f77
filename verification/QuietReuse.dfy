/** When a log that was written on behind a cut reads back without a report (db/log_reader.cc, db/version_set.cc).

    What the reader reports is dropped from a log, but fatal in a manifest, so a manifest has to give back all its
    edits and make no report. */
module QuietReuse {
  import opened InternalKeys
  import opened LogFormat
  import opened LogReading
  import opened LogReuse

  /** All records are read, and nothing is reported. */
  predicate ReadsQuietly(file: Bytes, records: seq<Bytes>) {
    var (rs, d) := AllRecords(Cursor([], file, false, 0));
    rs == records && d.reports == 0
  }

  /** The torn fragment has so little of its header that it looks like a block never written once zeros fill it up. */
  predicate Blank(fs: seq<Fragment>, k: nat)
    requires AllFit(0, fs)
  {
    var m := WholeCount(0, fs, k);
    m < |fs| && (Torn(0, fs, k) <= 4 || (Torn(0, fs, k) < HEADER && fs[m].data == []))
  }

  /** What is written behind the cut is read back quietly: the cut is at the edge of a fragment with no record begun, or
      it left next to nothing of a header so near the end of a block that the writer starts the next. */
  predicate GoesOnQuietly(fs: seq<Fragment>, k: nat)
    requires AllFit(0, fs)
  {
    if Torn(0, fs, k) == 0 then !Unfinished(Held(fs, k))
    else BLOCK < k % BLOCK + HEADER && Blank(fs, k) && Held(fs, k).None?
  }

  /** A log that was cut off and written on gives back all its records without a report if and only if it did so up to
      the cut, and nothing was written on or it goes on quietly. */
  lemma QuietReuseIff(fs: seq<Fragment>, k: nat, later: seq<Bytes>)
    requires AllFit(0, fs) && Typed(fs) && k <= |Layout(0, fs)|
    requires later == [] || !Collides(fs, k, later)
    ensures ReadsQuietly(WrittenOn(fs, k, later), Kept(fs, k) + later)
       <==> ReportsOf(Front(fs, k), None) == 0 && (later == [] || GoesOnQuietly(fs, k))
  {
    hide AllRecords, RecordsOf, ReportsOf, Layout, AllFit, AllFragments, Torn, NextBlock, Collides, WrittenOn, Kept;
    hide Held;
    hide Front, Blank, WholeCount, Unwritten, BlockAtTear;
    var e := k % BLOCK;
    if Torn(0, fs, k) == 0 {
      EdgeReuse(fs, k, later);
    } else {
      TornReuse(fs, k, later);
      ReusedLogIff(fs, k, later);
      if later != [] && BLOCK < e + HEADER {
        FilledUp(fs, k, later);
        NextIsAll(e, AllFragments(e, later));
        ReportsOfAll(e, later, None);
        BlankIsDropped(fs, k, later);
      }
    }
  }

  /** When it does not go on quietly, records are missing or something is reported. */
  lemma OtherwiseLost(fs: seq<Fragment>, k: nat, later: seq<Bytes>)
    requires AllFit(0, fs) && Typed(fs) && k <= |Layout(0, fs)| && later != [] && !Collides(fs, k, later)
    requires !GoesOnQuietly(fs, k)
    ensures var (rs, d) := AllRecords(Cursor([], WrittenOn(fs, k, later), false, 0));
            d.reports > 0 || |rs| < |Kept(fs, k)| + |later|
  {
    hide AllRecords, RecordsOf, ReportsOf, Layout, AllFit, AllFragments, Torn, NextBlock, Collides, WrittenOn, Kept;
    hide Held;
    hide GoesOnQuietly, WholeCount, Front;
    QuietReuseIff(fs, k, later);
    ReusedLogIff(fs, k, later);
    if Torn(0, fs, k) > 0 && k % BLOCK + HEADER <= BLOCK {
      TornReuse(fs, k, later);
      FewerRecords(k % BLOCK, later);
    }
  }

  /** Where the cut is at the edge of a block, inside a record, all that is written later is read, and the unfinished
      record is reported. */
  lemma CutInsideRecord(b: Bytes, later: seq<Bytes>)
    requires |b| > BLOCK - HEADER && later != []
    ensures var fs := AllFragments(0, [b]);
            && AllFit(0, fs) && BLOCK <= |Layout(0, fs)|
            && AllRecords(Cursor([], WrittenOn(fs, BLOCK, later), false, 0)).0 == later
            && AllRecords(Cursor([], WrittenOn(fs, BLOCK, later), false, 0)).1.reports == 1
  {
    hide AllRecords, RecordsOf, ReportsOf, Physical, WrittenOn, Kept, Front;
    var fs := AllFragments(0, [b]);
    AllFragmentsFit(0, [b]);
    AllFragmentsTyped(0, [b]);
    AllOne(0, b);
    FirstOfRecord(0, true, b);
    var n := Cut(0, b);
    assert n == BLOCK - HEADER;
    var f := Fragment(FIRST, b[..n]);
    var more := Fragments(BLOCK, false, b[n..]);
    assert fs == [f] + more && fs[1..] == more;
    FirstFragment(0, f, more);
    assert |Chunk(0, f)| == BLOCK && Trailer(0) == [];
    assert WholeCount(0, fs, BLOCK) == 1 && Torn(0, fs, BLOCK) == 0 by { CutBehindFirst(fs, f, more); }
    EdgeReuse(fs, BLOCK, later);
    OneFragment(f, None);
    assert fs[..1] == [f] && [f][1..] == [];
    KeptIs(fs, BLOCK, [f]);
    assert PendingAfter([], Hold(f, None)) == Hold(f, None) == Some(b[..n]);
    assert Held(fs, BLOCK) == Some(b[..n]);
  }

  /** The second of two records is torn, and what is written behind it too short to reach its end. */
  lemma SecondRecordTorn(records: seq<Bytes>, later: seq<Bytes>, j: nat)
    requires |records| == 2 && |later| == 1 && |records[0]| <= 1000 && |records[1]| <= 2000
    requires HEADER <= j && j + HEADER + |later[0]| < HEADER + |records[1]|
    ensures var fs, k := AllFragments(0, records), |LogBytes(records[..1])| + j;
            && AllFit(0, fs) && k <= |Layout(0, fs)| && ReadsQuietly(WrittenOn(fs, k, later), records[..1])
  {
    hide LogBytes, AllRecords, AllFragments, Layout, AllFit, WrittenOn;
    var a, b, c := records[0], records[1], later[0];
    assert records == [a, b] && later == [c] && records[..1] == [a];
    WriteBehindTearIsLost(a, b, c, j);
  }

  lemma CutBehindFirst(fs: seq<Fragment>, f: Fragment, more: seq<Fragment>)
    requires fs == [f] + more && AllFit(0, fs) && |Chunk(0, f)| == BLOCK && After(0, f) <= BLOCK && more != []
    ensures WholeCount(0, fs, BLOCK) == 1 && Torn(0, fs, BLOCK) == 0
  {
    hide Physical;
    assert fs[0] == f && fs[1..] == more;
    assert WholeCount(After(0, f), more, 0) == 0;
  }

  /** The writer fills the block of the cut with zeros. */
  lemma FilledUp(fs: seq<Fragment>, k: nat, later: seq<Bytes>)
    requires AllFit(0, fs) && k <= |Layout(0, fs)| && later != [] && BLOCK < k % BLOCK + HEADER
    ensures |WrittenOn(fs, k, later)| >= k - k % BLOCK + BLOCK
  {
    hide Layout, AllFit, AllFragments;
    var e := k % BLOCK;
    AllFragmentsFit(e, later);
    SomeFragments(e, later);
    LayoutNotShort(e, AllFragments(e, later));
  }

  /** The rest of the block is skipped without a report exactly when it looks like one never written. */
  lemma BlankIsDropped(fs: seq<Fragment>, k: nat, later: seq<Bytes>)
    requires AllFit(0, fs) && Typed(fs) && k <= |Layout(0, fs)| && later != []
    requires Torn(0, fs, k) > 0 && BLOCK < k % BLOCK + HEADER
    ensures Unwritten(BlockAtTear(fs, k, later)) <==> Blank(fs, k)
  {
    hide Layout, AllFit, AllFragments, AfterAll, WholeCount, Torn, Trailer, Physical, Unwritten, Collides;
    var torn := CutIs(0, fs, k);
    var m := WholeCount(0, fs, k);
    var p := AfterAll(0, fs[..m]);
    var e := k % BLOCK;
    var f := fs[m..][0];
    assert f == fs[m];
    TornOffset(fs, k, fs[..m], fs[m..], p, torn);
    TearIs(fs, k, later, fs[..m], fs[m..], p, torn);
    AllFragmentsFit(e, later);
    var more := AllFragments(e, later);
    SomeFragments(e, later);
    TrailerFirst(e, more);
    LayoutNotShort(0, more);
    assert |Trailer(e)| == BLOCK - e && Trailer(e) == Zeros(BLOCK - e) by { TrailerIs(e); }
    var rest := Layout(0, more);
    assert torn + (Trailer(e) + rest) == (torn + Trailer(e)) + rest;
    assert InBlock(p, torn + Layout(e, more)) == torn + Zeros(BLOCK - e);
    BlankIs(f, torn, BLOCK - e);
  }

  lemma TrailerIs(e: nat)
    requires e <= BLOCK < e + HEADER
    ensures Trailer(e) == Zeros(BLOCK - e)
  {
  }

  lemma BlankIs(f: Fragment, torn: Bytes, zeros: nat)
    requires FULL <= f.kind && |f.data| < BLOCK && torn <= Physical(f) && torn != Physical(f) && 0 < zeros < HEADER
    requires HEADER + |f.data| <= |torn| + zeros
    ensures Unwritten(torn + Zeros(zeros)) <==> |torn| <= 4 || (|torn| < HEADER && f.data == [])
  {
    hide ChecksumOk, Physical;
    ChecksumAgrees(f, []);
    var whole := Physical(f);
    assert whole + [] == whole;
    var b := torn + Zeros(zeros);
    assert |torn| > 4 ==> b[4] == whole[4];
    assert |torn| > 5 ==> b[5] == whole[5];
    assert |torn| > 6 ==> b[6] == whole[6];
  }
}
