/** Appending to a log file, as a whole or in part, and what is read back (db/log_writer.cc, db/log_reader.cc). */
module LogAppending {
  import opened InternalKeys
  import opened LogFormat
  import opened LogReading
  import opened LogReuse
  import opened QuietReuse

  /** What recovery reads from a log file. */
  function ReadLog(file: Bytes): seq<Bytes> {
    AllRecords(Cursor([], file, false, 0)).0
  }

  /** The file consists of whole fragments and perhaps zeros that fill a block. */
  ghost predicate EndsAtEdge(file: Bytes) {
    exists fs, fill :: AtEdge(file, fs, fill) && Typed(fs)
  }

  /** What a writer that knows the length of the file appends for a record. */
  function Appended(file: Bytes, data: Bytes): Bytes {
    FragmentsFit(|file| % BLOCK, true, data);
    Layout(|file| % BLOCK, Fragments(|file| % BLOCK, true, data))
  }

  /** Appending to such a file appends to its fragments. */
  lemma AppendedIs(file: Bytes, fs: seq<Fragment>, fill: nat, data: Bytes) returns (more: seq<Fragment>)
    requires AtEdge(file, fs, fill)
    ensures AfterAll(0, fs) <= BLOCK && more == Fragments(AfterAll(0, fs), true, data)
    ensures AtEdge(file + Appended(file, data), fs + more, 0) && file + Appended(file, data) == Layout(0, fs + more)
  {
    hide Fragments, Layout, AllFit, AfterAll;
    var b, p := |file| % BLOCK, AfterAll(0, fs);
    EdgeOffset(file, fs, fill);
    SameStartFragments(p, fill, b, data);
    more := Fragments(p, true, data);
    FragmentsFit(b, true, data);
    FragmentsFit(p, true, data);
    GoesOn(p, fill, b, more);
    FitAppend(0, fs, more);
    Regroup(Layout(0, fs), Zeros(fill), Layout(b, more), []);
    assert Layout(0, fs + more) + Zeros(0) == Layout(0, fs + more);
  }

  /** A record written as a whole is read back behind the others, and the file ends at an edge again. */
  lemma AppendReads(file: Bytes, data: Bytes)
    requires EndsAtEdge(file)
    ensures EndsAtEdge(file + Appended(file, data)) && ReadLog(file + Appended(file, data)) == ReadLog(file) + [data]
  {
    hide Fragments, Layout, AllFit, AfterAll, AtEdge, AllRecords, RecordsOf, Appended;
    var fs, fill :| AtEdge(file, fs, fill) && Typed(fs);
    var more := AppendedIs(file, fs, fill, data);
    FragmentsTyped(AfterAll(0, fs), true, data);
    assert Typed(fs + more);
    EdgeReads(file, fs, fill);
    EdgeReads(file + Appended(file, data), fs + more, 0);
    RecordsOfMore(fs, AfterAll(0, fs), data);
  }

  /** A record of which only a part was written is not read, wherever the part ends. */
  lemma PartReads(file: Bytes, data: Bytes, j: nat)
    requires EndsAtEdge(file) && j < |Appended(file, data)|
    ensures ReadLog(file + Appended(file, data)[..j]) == ReadLog(file)
  {
    hide Fragments, Layout, AllFit, AfterAll, AllRecords, RecordsOf, Appended, WholeCount, Kept;
    var fs, fill :| AtEdge(file, fs, fill) && Typed(fs);
    var more := AppendedIs(file, fs, fill, data);
    var p := AfterAll(0, fs);
    FragmentsTyped(p, true, data);
    var all := fs + more;
    var whole := Layout(0, all);
    var k := |file| + j;
    assert whole == file + Appended(file, data);
    assert whole[..k] == file + Appended(file, data)[..j];
    EdgeReads(file, fs, fill);
    CutReads(all, k);
    WholeBounds(0, fs, more, k);
    var m := WholeCount(0, all, k);
    assert all[..m] == fs + more[..m - |fs|];
    KeptIs(all, k, fs + more[..m - |fs|]);
    RecordsOfAppend(fs, more[..m - |fs|], None);
    RecordsOfPart(p, true, data, m - |fs|, PendingAfter(fs, None));
    assert RecordsOf(fs, None) + [] == RecordsOf(fs, None);
  }

  lemma {:induction false} WholeBounds(o: nat, fs: seq<Fragment>, more: seq<Fragment>, k: nat)
    requires o <= BLOCK && AllFit(o, fs + more) && AllFit(o, fs) && |Layout(o, fs)| <= k < |Layout(o, fs + more)|
    ensures |fs| <= WholeCount(o, fs + more, k) < |fs + more|
    decreases |fs| + |more|
  {
    hide Physical, Layout, AllFit;
    var all := fs + more;
    NoFragments(o);
    if all == [] {
      assert false;
    } else {
      var f, rest := all[0], all[1..];
      assert all == [f] + rest;
      FirstFragment(o, f, rest);
      if fs != [] {
        assert fs == [f] + fs[1..] && rest == fs[1..] + more;
        FirstFragment(o, f, fs[1..]);
        WholeBounds(After(o, f), fs[1..], more, k - |Chunk(o, f)|);
      } else if k >= |Chunk(o, f)| {
        assert more == all && rest == [] + more[1..];
        NoFragments(After(o, f));
        WholeBounds(After(o, f), [], more[1..], k - |Chunk(o, f)|);
      }
    }
  }

  /** Some of the fragments of a record, but not all, say nothing. */
  lemma {:induction false} RecordsOfPart(o: nat, begin: bool, data: Bytes, n: nat, pending: Option<Bytes>)
    requires o <= BLOCK && n < |Fragments(o, begin, data)|
    ensures RecordsOf(Fragments(o, begin, data)[..n], pending) == []
    decreases |data|, if Start(o) + HEADER == BLOCK then 1 else 0
  {
    hide RecordsOf, Fragments, Cut;
    if n == 0 {
      RecordsOfNone(pending);
      assert Fragments(o, begin, data)[..0] == [];
    } else {
      FirstOfRecord(o, begin, data);
      var f := Fragments(o, begin, data)[0];
      var rest := data[Cut(o, data)..];
      var after := Fragments(BLOCK, false, rest);
      assert Fragments(o, begin, data)[..n] == [f] + after[..n - 1];
      RecordsFirst(f, after[..n - 1], pending);
      RecordsOfPart(BLOCK, false, rest, n - 1, Hold(f, pending));
    }
  }

  lemma EmptyFile()
    ensures EndsAtEdge([]) && ReadLog([]) == []
  {
    hide AllRecords, RecordsOf;
    NoFragments(0);
    assert [] == Layout(0, []) + Zeros(0);
    assert AtEdge([], [], 0) && Typed([]);
    EdgeReads([], [], 0);
    RecordsOfNone(None);
  }

  // ---------- without reports ----------

  /** The file ends at the edge of a fragment with no record begun, and makes no report. */
  ghost predicate EndsQuietly(file: Bytes) {
    exists fs, fill :: AtEdge(file, fs, fill) && Quiet(fs)
  }

  predicate Quiet(fs: seq<Fragment>) {
    Typed(fs) && ReportsOf(fs, None) == 0 && !Unfinished(PendingAfter(fs, None))
  }

  lemma {:induction false} PendingAppend(a: seq<Fragment>, b: seq<Fragment>, pending: Option<Bytes>)
    ensures PendingAfter(a + b, pending) == PendingAfter(b, PendingAfter(a, pending))
    decreases |a|
  {
    if a == [] {
      assert a + b == b;
    } else {
      assert (a + b)[1..] == a[1..] + b;
      PendingAppend(a[1..], b, Hold(a[0], pending));
    }
  }

  /** Behind a whole record nothing is held. */
  lemma {:induction false} NothingHeld(o: nat, begin: bool, data: Bytes, pending: Option<Bytes>)
    requires o <= BLOCK
    ensures PendingAfter(Fragments(o, begin, data), pending) == None
    decreases |data|, if Start(o) + HEADER == BLOCK then 1 else 0
  {
    hide Fragments, Cut;
    var n := Cut(o, data);
    FirstOfRecord(o, begin, data);
    var f := Fragments(o, begin, data)[0];
    assert PendingAfter([], Hold(f, pending)) == Hold(f, pending);
    if n != |data| {
      assert Fragments(o, begin, data)[1..] == Fragments(BLOCK, false, data[n..]);
      NothingHeld(BLOCK, false, data[n..], Hold(f, pending));
    }
  }

  /** The first fragments of a record make no report where none is held. */
  lemma {:induction false} ReportsOfPart(o: nat, begin: bool, data: Bytes, n: nat, pending: Option<Bytes>)
    requires o <= BLOCK && n <= |Fragments(o, begin, data)| && (if begin then !Unfinished(pending) else pending.Some?)
    ensures ReportsOf(Fragments(o, begin, data)[..n], pending) == 0
    decreases |data|, if Start(o) + HEADER == BLOCK then 1 else 0
  {
    hide ReportsOf, Fragments, Cut;
    if n == 0 {
      NoReports(pending);
      assert Fragments(o, begin, data)[..0] == [];
    } else {
      FirstOfRecord(o, begin, data);
      var f := Fragments(o, begin, data)[0];
      var rest := data[Cut(o, data)..];
      if Cut(o, data) == |data| {
        assert Fragments(o, begin, data)[..n] == [f] + [];
        ReportsFirst(f, [], pending);
        NoReports(Hold(f, pending));
      } else {
        var after := Fragments(BLOCK, false, rest);
        assert Fragments(o, begin, data)[..n] == [f] + after[..n - 1];
        ReportsFirst(f, after[..n - 1], pending);
        ReportsOfPart(BLOCK, false, rest, n - 1, Hold(f, pending));
      }
    }
  }

  /** A record written as a whole behind such an end is read back behind the others, still without a report. */
  lemma AppendReadsQuietly(file: Bytes, data: Bytes, records: seq<Bytes>)
    requires EndsQuietly(file) && ReadsQuietly(file, records)
    ensures EndsQuietly(file + Appended(file, data)) && ReadsQuietly(file + Appended(file, data), records + [data])
  {
    hide Fragments, Layout, AllFit, AfterAll, AtEdge, AllRecords, RecordsOf, ReportsOf, Appended;
    var fs, fill :| AtEdge(file, fs, fill) && Quiet(fs);
    var p := AfterAll(0, fs);
    var more := AppendedIs(file, fs, fill, data);
    FragmentsTyped(p, true, data);
    assert Typed(fs + more);
    EdgeReads(file, fs, fill);
    EdgeReads(file + Appended(file, data), fs + more, 0);
    RecordsOfMore(fs, p, data);
    ReportsOfAppend(fs, more, None);
    ReportsOfPart(p, true, data, |more|, PendingAfter(fs, None));
    assert more[..|more|] == more;
    PendingAppend(fs, more, None);
    NothingHeld(p, true, data, PendingAfter(fs, None));
    assert Quiet(fs + more);
  }

  /** A record of which only a part was written is not read, and not reported. */
  lemma PartReadsQuietly(file: Bytes, data: Bytes, j: nat, records: seq<Bytes>)
    requires EndsQuietly(file) && ReadsQuietly(file, records) && j < |Appended(file, data)|
    ensures ReadsQuietly(file + Appended(file, data)[..j], records)
  {
    hide Fragments, Layout, AllFit, AfterAll, AllRecords, RecordsOf, ReportsOf, Appended, WholeCount;
    var fs, fill :| AtEdge(file, fs, fill) && Quiet(fs);
    assert EndsAtEdge(file);
    PartReads(file, data, j);
    var more := AppendedIs(file, fs, fill, data);
    var p := AfterAll(0, fs);
    FragmentsTyped(p, true, data);
    var all := fs + more;
    var k := |file| + j;
    assert Layout(0, all)[..k] == file + Appended(file, data)[..j];
    NoneLater(k % BLOCK);
    assert WrittenOn(all, k, []) == Layout(0, all)[..k];
    QuietReuseIff(all, k, []);
    CutReads(all, k);
    assert Kept(all, k) + [] == Kept(all, k);
    WholeBounds(0, fs, more, k);
    var n := WholeCount(0, all, k) - |fs|;
    assert Front(all, k) == fs + more[..n];
    ReportsOfAppend(fs, more[..n], None);
    ReportsOfPart(p, true, data, n, PendingAfter(fs, None));
  }

  lemma NoneLater(b: nat)
    requires b <= BLOCK
    ensures AllFragments(b, []) == [] && AllFit(b, []) && Layout(b, []) == []
  {
    NoFragments(b);
  }

  /** A log written from its start ends quietly. */
  lemma WrittenEndsQuietly(records: seq<Bytes>)
    ensures EndsQuietly(LogBytes(records)) && ReadsQuietly(LogBytes(records), records)
  {
    hide AllFragments, Layout, AllFit, AfterAll, ReportsOf, RecordsOf, AllRecords, LogBytes;
    WholeLog(records);
    if records == [] {
      EmptyIsQuiet();
    } else {
      var front, last := records[..|records| - 1], records[|records| - 1];
      assert records == front + [last];
      WrittenFragments(records);
      AllFragmentsFit(0, records);
      AllFragmentsTyped(0, records);
      ReportsOfAll(0, records, None);
      LogAppend(front, last);
      AllFragmentsAppend(0, front, last);
      PendingAppend(AllFragments(0, front), Fragments(AfterAll(0, AllFragments(0, front)), true, last), None);
      NothingHeld(AfterAll(0, AllFragments(0, front)), true, last, PendingAfter(AllFragments(0, front), None));
      assert Quiet(AllFragments(0, records));
    }
  }

  lemma WrittenFragments(records: seq<Bytes>)
    ensures AtEdge(LogBytes(records), AllFragments(0, records), 0)
  {
    hide AllFragments, Layout, AllFit, AfterAll;
    AllFragmentsFit(0, records);
    assert LogBytes(records) + Zeros(0) == LogBytes(records);
  }

  lemma EmptyIsQuiet()
    ensures EndsQuietly(LogBytes([]))
  {
    NoFragments(0);
    assert LogBytes([]) == [] && AtEdge([], [], 0) && Quiet([]);
  }
}
