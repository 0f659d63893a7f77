/** Writing on in a log that a crash cut off (db/log_writer.cc, db/log_reader.cc, db/db_impl.cc RecoverLogFile).

    A reopened database may go on with its last log.  The writer learns the length of the file and nothing else, so
    what the crash left of the last fragment stays where it is, and new fragments are written behind it. */
module LogReuse {
  import opened InternalKeys
  import opened LogFormat
  import opened LogReading

  // ---------- reading fragments in front of anything ----------

  /** The unread bytes are the layout of `fs` from offset `o`, and then `tail`. */
  ghost predicate Leads(c: Cursor, o: nat, fs: seq<Fragment>, tail: Bytes) {
    && o <= BLOCK && AllFit(o, fs)
    && c.buffer + c.rest == Layout(o, fs) + tail
    && (if c.eof then c.rest == [] && |c.buffer| + o < BLOCK else |c.buffer| + o == BLOCK)
  }

  /** A fragment that is there in full is the next piece, whatever stands behind it. */
  lemma {:induction false} PieceLeads(c: Cursor, o: nat, fs: seq<Fragment>, tail: Bytes)
    requires Leads(c, o, fs, tail) && fs != [] && Typed(fs)
    ensures var (p, d) := NextPiece(c);
            && p == Piece(fs[0].kind as nat, fs[0].data) && d.reports == c.reports
            && Leads(d, After(o, fs[0]), fs[1..], tail)
    decreases if c.eof then 0 else 1, |c.rest|
  {
    hide Parse, Chunk, AllFit, Layout, Leads;
    if |c.buffer| >= HEADER {
      ParseLeads(c, o, fs, tail);
    } else {
      RefillLeads(c, o, fs, tail);
      PieceLeads(Refill(c), 0, fs, tail);
    }
  }

  lemma ParseLeads(c: Cursor, o: nat, fs: seq<Fragment>, tail: Bytes)
    requires Leads(c, o, fs, tail) && fs != [] && Typed(fs) && |c.buffer| >= HEADER
    ensures var (p, d) := Parse(c);
            && p == Piece(fs[0].kind as nat, fs[0].data) && d.reports == c.reports
            && Leads(d, After(o, fs[0]), fs[1..], tail)
  {
    hide ChecksumOk, Length, Physical, AllFit, Layout;
    var f, more := fs[0], fs[1..];
    assert fs == [f] + more;
    FirstFragment(o, f, more);
    var n := HEADER + |f.data|;
    var follows := Layout(After(o, f), more) + tail;
    assert Chunk(o, f) == Physical(f);
    assert c.buffer + c.rest == Physical(f) + follows;
    assert |c.buffer| >= n;
    var left := c.buffer[n..];
    assert c.buffer + c.rest == c.buffer[..n] + (left + c.rest);
    SameParts(c.buffer[..n], left + c.rest, Physical(f), follows);
    assert c.buffer == Physical(f) + left;
    ChecksumAgrees(f, left);
    assert c.buffer[HEADER..n] == f.data;
  }

  lemma RefillLeads(c: Cursor, o: nat, fs: seq<Fragment>, tail: Bytes)
    requires Leads(c, o, fs, tail) && fs != [] && |c.buffer| < HEADER
    ensures !c.eof && Leads(Refill(c), 0, fs, tail) && After(o, fs[0]) == After(0, fs[0])
    ensures |c.rest| > 0
  {
    hide Physical, AllFit, Layout;
    assert fs == [fs[0]] + fs[1..];
    FirstFragment(o, fs[0], fs[1..]);
    assert |Layout(o, fs)| >= HEADER;
    TrailerFirst(o, fs);
    assert Trailer(o) + Layout(0, fs) + tail == Trailer(o) + (Layout(0, fs) + tail);
    SameParts(c.buffer, c.rest, Trailer(o), Layout(0, fs) + tail);
    assert Refill(c).buffer + Refill(c).rest == c.rest;
    FirstFragment(0, fs[0], fs[1..]);
  }

  lemma SameParts(a: Bytes, b: Bytes, x: Bytes, y: Bytes)
    requires |a| == |x| && a + b == x + y
    ensures a == x && b == y
  {
    assert (a + b)[..|a|] == a && (x + y)[..|a|] == x;
    assert (a + b)[|a|..] == b && (x + y)[|a|..] == y;
  }

  /** All records from a reader in the middle of one. */
  function RecordsFrom(c: Cursor, inRecord: bool, scratch: Bytes): seq<Bytes> {
    var (r, d) := NextRecord(c, inRecord, scratch);
    if r.None? then [] else [r.value] + AllRecords(d).0
  }

  /** How many corruptions the reader has reported by then. */
  function ReportsFrom(c: Cursor, inRecord: bool, scratch: Bytes): nat {
    var (r, d) := NextRecord(c, inRecord, scratch);
    if r.None? then d.reports else AllRecords(d).1.reports
  }

  lemma FromTheStart(c: Cursor)
    ensures AllRecords(c).0 == RecordsFrom(c, false, []) && AllRecords(c).1.reports == ReportsFrom(c, false, [])
  {
  }

  /** The reader's flag and buffer hold what `pending` says. */
  predicate Holds(inRecord: bool, scratch: Bytes, pending: Option<Bytes>) {
    (inRecord <==> pending.Some?) && (inRecord ==> scratch == pending.value)
  }

  /** One fragment. */
  lemma FragmentRead(c: Cursor, o: nat, fs: seq<Fragment>, tail: Bytes, inRecord: bool, scratch: Bytes,
                     pending: Option<Bytes>)
    returns (d: Cursor, inRecord': bool, scratch': Bytes)
    requires Leads(c, o, fs, tail) && fs != [] && Typed(fs) && Holds(inRecord, scratch, pending)
    ensures Leads(d, After(o, fs[0]), fs[1..], tail) && Holds(inRecord', scratch', Hold(fs[0], pending))
    ensures RecordsFrom(c, inRecord, scratch) == RecordsOf([fs[0]], pending) + RecordsFrom(d, inRecord', scratch')
    ensures ReportsFrom(c, inRecord, scratch) == ReportsFrom(d, inRecord', scratch')
    ensures d.reports == c.reports + ReportsOf([fs[0]], pending)
  {
    hide NextPiece, Leads, AllRecords;
    var f := fs[0];
    PieceLeads(c, o, fs, tail);
    assert f in fs;
    var piece := NextPiece(c).0;
    d := NextPiece(c).1;
    var reported := d.(reports := d.reports + 1);
    assert Leads(reported, After(o, f), fs[1..], tail) by { SameBytes(d, reported, After(o, f), fs[1..], tail); }
    OneFragment(f, pending);
    if f.kind == FULL || (f.kind == LAST && pending.Some?) {
      d := if f.kind == FULL && inRecord && scratch != [] then reported else d;
      inRecord', scratch' := false, [];
      FromTheStart(d);
    } else if f.kind == FIRST {
      d := if inRecord && scratch != [] then reported else d;
      inRecord', scratch' := true, f.data;
    } else if f.kind == MIDDLE && inRecord {
      inRecord', scratch' := true, scratch + f.data;
    } else {
      d := reported;
      inRecord', scratch' := false, scratch;
    }
  }

  lemma SameBytes(c: Cursor, d: Cursor, o: nat, fs: seq<Fragment>, tail: Bytes)
    requires Leads(c, o, fs, tail) && d == c.(reports := d.reports)
    ensures Leads(d, o, fs, tail)
  {
  }

  lemma OneFragment(f: Fragment, pending: Option<Bytes>)
    ensures RecordsOf([f], pending) == if f.kind == FULL then [f.data]
                                       else if f.kind == LAST && pending.Some? then [pending.value + f.data] else []
    ensures ReportsOf([f], pending) == if Reported(f, pending) then 1 else 0
  {
    assert [f][1..] == [];
  }

  /** Any sequence of fragments is read as the records it says, whatever stands behind it. */
  lemma {:induction false} FragmentsRead(c: Cursor, o: nat, fs: seq<Fragment>, tail: Bytes, inRecord: bool,
                                         scratch: Bytes, pending: Option<Bytes>)
    returns (d: Cursor, inRecord': bool, scratch': Bytes)
    requires Leads(c, o, fs, tail) && Typed(fs) && Holds(inRecord, scratch, pending)
    ensures AfterAll(o, fs) <= BLOCK && Leads(d, AfterAll(o, fs), [], tail)
    ensures Holds(inRecord', scratch', PendingAfter(fs, pending))
    ensures RecordsFrom(c, inRecord, scratch) == RecordsOf(fs, pending) + RecordsFrom(d, inRecord', scratch')
    ensures ReportsFrom(c, inRecord, scratch) == ReportsFrom(d, inRecord', scratch')
    ensures d.reports == c.reports + ReportsOf(fs, pending)
    decreases |fs|
  {
    hide Leads, RecordsFrom, ReportsFrom, RecordsOf, ReportsOf, Hold, Holds;
    if fs == [] {
      d, inRecord', scratch' := c, inRecord, scratch;
      LeadsBlock(c, o, fs, tail);
      RecordsOfNone(pending);
      assert ReportsOf(fs, pending) == 0 by { NoReports(pending); }
    } else {
      d, inRecord', scratch' := FragmentRead(c, o, fs, tail, inRecord, scratch, pending);
      var e, i, s := FragmentsRead(d, After(o, fs[0]), fs[1..], tail, inRecord', scratch', Hold(fs[0], pending));
      d, inRecord', scratch' := e, i, s;
      assert fs == [fs[0]] + fs[1..];
      RecordsOfAppend([fs[0]], fs[1..], pending);
      ReportsOfAppend([fs[0]], fs[1..], pending);
      assert PendingAfter([fs[0]], pending) == Hold(fs[0], pending) by { assert [fs[0]][1..] == []; }
    }
  }

  lemma LeadsBlock(c: Cursor, o: nat, fs: seq<Fragment>, tail: Bytes)
    requires Leads(c, o, fs, tail)
    ensures o <= BLOCK && AllFit(o, fs)
  {
  }

  // ---------- reports ----------

  /** The reader reports a fragment that begins a record before the one it holds has ended, or goes on with none. */
  predicate Reported(f: Fragment, pending: Option<Bytes>) {
    if f.kind == FULL || f.kind == FIRST then Unfinished(pending) else pending.None?
  }

  /** A record of which something was read, but not its end. */
  predicate Unfinished(pending: Option<Bytes>) {
    pending.Some? && pending.value != []
  }

  function ReportsOf(fs: seq<Fragment>, pending: Option<Bytes>): nat
    decreases |fs|
  {
    if fs == [] then 0
    else (if Reported(fs[0], pending) then 1 else 0) + ReportsOf(fs[1..], Hold(fs[0], pending))
  }

  lemma NoReports(pending: Option<Bytes>)
    ensures ReportsOf([], pending) == 0
  {
  }

  lemma {:induction false} ReportsOfAppend(a: seq<Fragment>, b: seq<Fragment>, pending: Option<Bytes>)
    ensures ReportsOf(a + b, pending) == ReportsOf(a, pending) + ReportsOf(b, PendingAfter(a, pending))
    decreases |a|
  {
    if a == [] {
      assert a + b == b;
    } else {
      assert (a + b)[1..] == a[1..] + b;
      ReportsOfAppend(a[1..], b, Hold(a[0], pending));
    }
  }

  lemma ReportsFirst(f: Fragment, more: seq<Fragment>, pending: Option<Bytes>)
    ensures ReportsOf([f] + more, pending)
             == (if Reported(f, pending) then 1 else 0) + ReportsOf(more, Hold(f, pending))
  {
    assert ([f] + more)[1..] == more;
  }

  /** The fragments of a record make no report, but for a record left unfinished in front of it. */
  lemma {:induction false} ReportsOfRecord(o: nat, begin: bool, data: Bytes, more: seq<Fragment>,
                                           pending: Option<Bytes>)
    requires o <= BLOCK && (begin || pending.Some?)
    ensures ReportsOf(Fragments(o, begin, data) + more, pending)
         == (if begin && Unfinished(pending) then 1 else 0) + ReportsOf(more, None)
    decreases |data|, if Start(o) + HEADER == BLOCK then 1 else 0
  {
    hide ReportsOf, Fragments, Cut;
    var n := Cut(o, data);
    var f := Fragment(KindOf(begin, n == |data|), data[..n]);
    FirstOfRecord(o, begin, data);
    if n == |data| {
      ReportsFirst(f, more, pending);
    } else {
      var after := Fragments(BLOCK, false, data[n..]);
      assert [f] + after + more == [f] + (after + more);
      ReportsFirst(f, after + more, pending);
      ReportsOfRecord(BLOCK, false, data[n..], more, Hold(f, pending));
    }
  }

  lemma {:induction false} ReportsOfAll(o: nat, records: seq<Bytes>, pending: Option<Bytes>)
    requires o <= BLOCK
    ensures ReportsOf(AllFragments(o, records), pending) == if records != [] && Unfinished(pending) then 1 else 0
    decreases |records|
  {
    hide Fragments;
    if records != [] {
      var fs := Fragments(o, true, records[0]);
      FragmentsFit(o, true, records[0]);
      var p := AfterAll(o, fs);
      ReportsOfRecord(o, true, records[0], AllFragments(p, records[1..]), pending);
      ReportsOfAll(p, records[1..], None);
    }
  }

  // ---------- ends of files ----------

  /** A fragment cut off at the end of the file is nothing. */
  lemma TornEnd(c: Cursor, o: nat, f: Fragment, tail: Bytes, inRecord: bool, scratch: Bytes)
    requires Leads(c, o, [], tail) && Fits(o, f) && FULL <= f.kind <= LAST
    requires tail <= Chunk(o, f) && tail != Chunk(o, f)
    ensures RecordsFrom(c, inRecord, scratch) == [] && ReportsFrom(c, inRecord, scratch) == c.reports
  {
    hide Chunk, NextPiece;
    assert [f] + [] == [f];
    FirstFragment(o, f, []);
    NoFragments(o);
    NoFragments(After(o, f));
    assert Layout(o, [f]) == Chunk(o, f);
    assert Layout(o, []) + tail == tail;
    PieceAhead(c, o, [f]);
  }

  /** Zeros that fill a block are nothing. */
  lemma FillEnd(c: Cursor, o: nat, fill: nat, inRecord: bool, scratch: Bytes)
    requires Leads(c, o, [], Zeros(fill)) && fill <= |Trailer(o)|
    ensures RecordsFrom(c, inRecord, scratch) == [] && ReportsFrom(c, inRecord, scratch) == c.reports
  {
    hide Physical, Layout;
    var f := Fragment(FULL, []);
    assert Zeros(fill) <= Trailer(o) + Physical(f);
    assert |Chunk(o, f)| > fill;
    TornEnd(c, o, f, Zeros(fill), inRecord, scratch);
  }

  /** A file that ends at the edge of a fragment holds the records its fragments say. */
  lemma EdgeReads(file: Bytes, fs: seq<Fragment>, fill: nat)
    requires AtEdge(file, fs, fill) && Typed(fs)
    ensures AllRecords(Cursor([], file, false, 0)).0 == RecordsOf(fs, None)
    ensures AllRecords(Cursor([], file, false, 0)).1.reports == ReportsOf(fs, None)
  {
    hide RecordsFrom, ReportsFrom, RecordsOf, ReportsOf, Layout, AllFit, AllRecords;
    var c := Cursor([], file, false, 0);
    StartLeads(c, fs, Zeros(fill));
    var d, i, s := FragmentsRead(c, BLOCK, fs, Zeros(fill), false, [], None);
    FillAfter(fs, fill);
    FillEnd(d, AfterAll(BLOCK, fs), fill, i, s);
    FromTheStart(c);
    assert RecordsOf(fs, None) + [] == RecordsOf(fs, None);
  }

  /** The reader starts as if a full block lay behind it. */
  lemma StartLeads(c: Cursor, fs: seq<Fragment>, tail: Bytes)
    requires AllFit(0, fs) && c.buffer == [] && !c.eof && c.rest == Layout(0, fs) + tail
    ensures Leads(c, BLOCK, fs, tail)
  {
    hide Layout, AllFit;
    SameLayout(0, BLOCK, fs);
    assert c.buffer + c.rest == c.rest;
  }

  lemma FillAfter(fs: seq<Fragment>, fill: nat)
    requires AllFit(0, fs) && AfterAll(0, fs) <= BLOCK && fill <= |Trailer(AfterAll(0, fs))|
    ensures AfterAll(BLOCK, fs) <= BLOCK && fill <= |Trailer(AfterAll(BLOCK, fs))|
    ensures fs != [] ==> AfterAll(BLOCK, fs) == AfterAll(0, fs)
  {
    hide AllFit, Layout;
    SameLayout(0, BLOCK, fs);
  }

  // ---------- a torn fragment with others behind it ----------

  /** What the reader takes for a fragment. */
  predicate Passes(b: Bytes) {
    && |b| >= HEADER && HEADER + Length(b) <= |b|
    && !(b[6] == ZERO_TYPE && Length(b) == 0) && ChecksumOk(b, Length(b))
  }

  /** Of the bytes `u`, which start where a fragment starts that a writer puts at `o`, those in the same block. */
  function InBlock(o: nat, u: Bytes): Bytes
    requires Start(o) <= BLOCK
  {
    if |u| <= BLOCK - Start(o) then u else u[..BLOCK - Start(o)]
  }

  /** The fragments that start in a later block than offset `o` is in. */
  function NextBlock(o: nat, fs: seq<Fragment>): seq<Fragment>
    decreases |fs|
  {
    if fs == [] || BLOCK < o + HEADER then fs else NextBlock(After(o, fs[0]), fs[1..])
  }

  lemma {:induction false} BlockSplit(o: nat, fs: seq<Fragment>)
    requires o <= BLOCK && AllFit(o, fs)
    ensures var next := NextBlock(o, fs);
            && AllFit(BLOCK, next)
            && (next == [] ==> |Layout(o, fs)| <= BLOCK - o)
            && (next != [] ==> |Layout(o, fs)| >= BLOCK - o && Layout(o, fs)[BLOCK - o..] == Layout(BLOCK, next))
    decreases |fs|
  {
    hide Physical, Layout, AllFit;
    if fs == [] {
      NoFragments(o);
      NoFragments(BLOCK);
    } else if BLOCK < o + HEADER {
      TrailerFirst(o, fs);
      SameLayout(0, BLOCK, fs);
    } else {
      var f, more := fs[0], fs[1..];
      assert fs == [f] + more;
      FirstFragment(o, f, more);
      BlockSplit(After(o, f), more);
    }
  }

  lemma NextTyped(o: nat, fs: seq<Fragment>)
    requires Typed(fs)
    ensures Typed(NextBlock(o, fs))
    decreases |fs|
  {
  }

  /** In front of the zeros that fill a block, the reader goes to the next one. */
  lemma PastTrailer(c: Cursor, o: nat, u: Bytes, inRecord: bool, scratch: Bytes) returns (d: Cursor)
    requires o <= BLOCK && Leads(c, o, [], Trailer(o) + u) && u != []
    ensures d.buffer + d.rest == u && d.buffer == InBlock(o, u)
    ensures d.rest == u[|d.buffer|..] && (d.eof ==> d.rest == [] && |u| < BLOCK - Start(o))
    ensures (!d.eof ==> |u| >= BLOCK - Start(o))
    ensures RecordsFrom(c, inRecord, scratch) == RecordsFrom(d, inRecord, scratch)
    ensures ReportsFrom(c, inRecord, scratch) == ReportsFrom(d, inRecord, scratch) && d.reports == c.reports
  {
    hide RecordsFrom, ReportsFrom, Layout;
    NoFragments(o);
    assert c.buffer + c.rest == Trailer(o) + u;
    if BLOCK < o + HEADER {
      SameParts(c.buffer, c.rest, Trailer(o), u);
      d := Refill(c);
      RefillSame(c, inRecord, scratch);
      assert d.buffer + d.rest == u;
    } else {
      assert Trailer(o) + u == u;
      d := c;
    }
    assert (d.buffer + d.rest)[..|d.buffer|] == d.buffer && (d.buffer + d.rest)[|d.buffer|..] == d.rest;
  }

  lemma RefillSame(c: Cursor, inRecord: bool, scratch: Bytes)
    requires |c.buffer| < HEADER && !c.eof
    ensures RecordsFrom(c, inRecord, scratch) == RecordsFrom(Refill(c), inRecord, scratch)
    ensures ReportsFrom(c, inRecord, scratch) == ReportsFrom(Refill(c), inRecord, scratch)
    ensures Refill(c).reports == c.reports
  {
    hide AllRecords, NextRecord;
    assert Refill(c).reports == c.reports;
    SameNextRecord(c, inRecord, scratch);
  }

  lemma SameNextRecord(c: Cursor, inRecord: bool, scratch: Bytes)
    requires |c.buffer| < HEADER && !c.eof
    ensures NextRecord(c, inRecord, scratch) == NextRecord(Refill(c), inRecord, scratch)
  {
    hide Parse, Refill;
    assert NextPiece(c) == NextPiece(Refill(c));
  }

  /** What looks like a block that was allocated and never written is skipped without a report. */
  predicate Unwritten(b: Bytes) {
    |b| >= HEADER && HEADER + Length(b) <= |b| && b[6] == ZERO_TYPE && Length(b) == 0
  }

  /** A header that announces more than is there; at the end of the file it counts as cut off. */
  predicate Overlong(b: Bytes) {
    |b| >= HEADER && HEADER + Length(b) > |b|
  }

  /** How many reports a block makes that is given up. */
  function Dropped(b: Bytes, inRecord: bool): nat {
    (if Unwritten(b) then 0 else 1) + (if inRecord then 1 else 0)
  }

  /** A block that does not pass for a fragment is given up. */
  lemma BlockDropped(c: Cursor, inRecord: bool, scratch: Bytes) returns (d: Cursor, scratch': Bytes)
    requires |c.buffer| >= HEADER && !Passes(c.buffer)
    ensures d.buffer == [] && d.rest == c.rest && d.eof == c.eof
    ensures RecordsFrom(c, inRecord, scratch) == if c.eof then [] else RecordsFrom(d, false, scratch')
    ensures !c.eof ==> ReportsFrom(c, inRecord, scratch) == ReportsFrom(d, false, scratch')
    ensures !c.eof ==> d.reports == c.reports + Dropped(c.buffer, inRecord)
    ensures c.eof && Overlong(c.buffer) ==> ReportsFrom(c, inRecord, scratch) == c.reports
  {
    hide Length, ChecksumOk, AllRecords;
    var p := NextPiece(c).0;
    d := NextPiece(c).1;
    if p.code == BAD {
      d := if inRecord then d.(reports := d.reports + 1) else d;
      scratch' := if inRecord then [] else scratch;
      assert RecordsFrom(c, inRecord, scratch) == RecordsFrom(d, false, scratch');
      if c.eof {
        NothingLeft(d, false, scratch');
      }
    } else {
      assert p.code == EOF && c.eof;
      scratch' := [];
    }
  }

  /** Behind a torn fragment the reader gives up the rest of the block, unless the bytes there pass for a fragment. */
  lemma TornThen(c: Cursor, o: nat, torn: Bytes, e: nat, more: seq<Fragment>, later: Bytes, inRecord: bool,
                 scratch: Bytes)
    requires o <= BLOCK && 0 < |torn| && e == Start(o) + |torn| <= BLOCK
    requires AllFit(e, more) && more != [] && Typed(more) && later == Layout(e, more)
    requires Leads(c, o, [], Trailer(o) + (torn + later))
    requires !Passes(InBlock(o, torn + later))
    ensures RecordsFrom(c, inRecord, scratch) == RecordsOf(NextBlock(e, more), None)
    ensures |torn + later| >= BLOCK - Start(o) ==>
              ReportsFrom(c, inRecord, scratch)
              == c.reports + Dropped(InBlock(o, torn + later), inRecord) + ReportsOf(NextBlock(e, more), None)
    ensures |torn + later| < BLOCK - Start(o) && Overlong(torn + later) ==>
              ReportsFrom(c, inRecord, scratch) == c.reports
  {
    hide Layout, AllFit, RecordsOf, ReportsOf, Passes, NextBlock, Leads, RecordsFrom, ReportsFrom, Trailer, Dropped;
    hide Overlong;
    LayoutNotShort(e, more);
    var u := torn + later;
    var b := PastTrailer(c, o, u, inRecord, scratch);
    assert |b.buffer| >= HEADER by { assert |u| >= HEADER; }
    hide InBlock;
    var d, s := BlockDropped(b, inRecord, scratch);
    AfterTorn(d, Start(o), torn, more, s);
  }

  /** The reader stands behind the block that it gave up. */
  lemma AfterTorn(d: Cursor, start: nat, torn: Bytes, more: seq<Fragment>, scratch: Bytes)
    requires start + |torn| <= BLOCK && AllFit(start + |torn|, more) && Typed(more) && d.buffer == []
    requires var u := torn + Layout(start + |torn|, more);
             if d.eof then |u| < BLOCK - start else |u| >= BLOCK - start && d.rest == u[BLOCK - start..]
    ensures RecordsOf(NextBlock(start + |torn|, more), None) == if d.eof then [] else RecordsFrom(d, false, scratch)
    ensures !d.eof ==> ReportsFrom(d, false, scratch) == d.reports + ReportsOf(NextBlock(start + |torn|, more), None)
  {
    hide Layout, AllFit, RecordsOf, ReportsOf, NextBlock, Leads, RecordsFrom, ReportsFrom;
    var e := start + |torn|;
    var later := Layout(e, more);
    BlockSplit(e, more);
    NextTyped(e, more);
    var next := NextBlock(e, more);
    if d.eof {
      assert next == [];
      RecordsOfNone(None);
    } else {
      DropFront(torn, later, BLOCK - start);
      NextLeads(d, next, later, BLOCK - e);
      RestOfLog(d, next, scratch);
    }
  }

  lemma LayoutNotShort(o: nat, fs: seq<Fragment>)
    requires o <= BLOCK && AllFit(o, fs) && fs != []
    ensures |Layout(o, fs)| >= HEADER + |Trailer(o)|
  {
    hide Physical;
  }

  lemma DropFront(a: Bytes, b: Bytes, n: nat)
    requires |a| <= n <= |a| + |b|
    ensures (a + b)[n..] == b[n - |a|..]
  {
  }

  lemma NextLeads(d: Cursor, next: seq<Fragment>, later: Bytes, n: nat)
    requires AllFit(BLOCK, next) && n <= |later| && d.buffer == [] && d.rest == later[n..] && !d.eof
    requires if next == [] then |later| <= n else later[n..] == Layout(BLOCK, next)
    ensures Leads(d, BLOCK, next, [])
  {
    hide Layout, AllFit;
    NoFragments(BLOCK);
    assert d.buffer + d.rest == Layout(BLOCK, next) + [];
  }

  lemma NothingLeft(c: Cursor, inRecord: bool, scratch: Bytes)
    requires c.buffer == [] && c.eof
    ensures RecordsFrom(c, inRecord, scratch) == []
  {
  }

  lemma RestOfLog(c: Cursor, next: seq<Fragment>, scratch: Bytes)
    requires Leads(c, BLOCK, next, []) && Typed(next)
    ensures RecordsFrom(c, false, scratch) == RecordsOf(next, None)
    ensures ReportsFrom(c, false, scratch) == c.reports + ReportsOf(next, None)
  {
    hide Leads, RecordsFrom, ReportsFrom, RecordsOf, ReportsOf;
    var d, i, s := FragmentsRead(c, BLOCK, next, [], false, scratch, None);
    assert Zeros(0) == [];
    FillEnd(d, AfterAll(BLOCK, next), 0, i, s);
    assert RecordsOf(next, None) + [] == RecordsOf(next, None);
  }

  // ---------- where a cut falls ----------

  /** How many of the fragments lie wholly in the first `k` bytes. */
  function WholeCount(o: nat, fs: seq<Fragment>, k: nat): (m: nat)
    requires o <= BLOCK && AllFit(o, fs)
    ensures m <= |fs|
    decreases |fs|
  {
    if fs == [] || k < |Chunk(o, fs[0])| then 0
    else 1 + WholeCount(After(o, fs[0]), fs[1..], k - |Chunk(o, fs[0])|)
  }

  /** How many bytes of the next fragment lie in front of the cut; none if the cut is at an edge. */
  function Torn(o: nat, fs: seq<Fragment>, k: nat): nat
    requires o <= BLOCK && AllFit(o, fs)
    decreases |fs|
  {
    if fs == [] then 0
    else if k >= |Chunk(o, fs[0])| then Torn(After(o, fs[0]), fs[1..], k - |Chunk(o, fs[0])|)
    else if k <= |Trailer(o)| then 0
    else k - |Trailer(o)|
  }

  /** A cut in front of `rest` leaves whole fragments and then zeros that fill a block, or the front of a fragment. */
  ghost predicate CutAt(o: nat, front: seq<Fragment>, rest: seq<Fragment>, k: nat, p: nat, torn: Bytes, cut: Bytes) {
    && o <= BLOCK && AllFit(o, front) && p == AfterAll(o, front) && p <= BLOCK
    && var whole := Layout(o, front);
       if torn == [] then |whole| <= k <= |whole| + |Trailer(p)| && cut == whole + Zeros(k - |whole|)
       else IsTorn(p, rest, torn) && cut == whole + (Trailer(p) + torn)
  }

  /** A proper part of the first of the fragments. */
  ghost predicate IsTorn(p: nat, rest: seq<Fragment>, torn: Bytes) {
    rest != [] && Fits(p, rest[0]) && torn <= Physical(rest[0]) && torn != Physical(rest[0])
  }

  lemma {:induction false} CutIs(o: nat, fs: seq<Fragment>, k: nat) returns (torn: Bytes)
    requires o <= BLOCK && AllFit(o, fs) && k <= |Layout(o, fs)|
    ensures var m := WholeCount(o, fs, k);
            CutAt(o, fs[..m], fs[m..], k, AfterAll(o, fs[..m]), torn, Layout(o, fs)[..k]) && |torn| == Torn(o, fs, k)
    decreases |fs|
  {
    hide Physical, Layout, AllFit, CutAt, IsTorn;
    if fs == [] {
      torn := [];
      assert fs[..0] == [];
      NoFragments(o);
      EmptyCut(o, fs);
    } else {
      var f, more := fs[0], fs[1..];
      assert fs == [f] + more;
      FirstFragment(o, f, more);
      var n := |Chunk(o, f)|;
      var p := After(o, f);
      if k >= n {
        torn := CutIs(p, more, k - n);
        var m := WholeCount(p, more, k - n);
        assert fs[..m + 1] == [f] + more[..m] && fs[m + 1..] == more[m..];
        CutLonger(o, f, more[..m], more[m..], k - n, AfterAll(p, more[..m]), torn, Layout(p, more)[..k - n]);
        assert Layout(o, fs)[..k] == Chunk(o, f) + Layout(p, more)[..k - n];
      } else {
        assert fs[..0] == [] && fs[0..] == fs;
        assert Layout(o, fs)[..k] == Chunk(o, f)[..k];
        torn := FirstCut(o, fs, k);
      }
    }
  }

  lemma EmptyCut(o: nat, rest: seq<Fragment>)
    requires o <= BLOCK
    ensures CutAt(o, [], rest, 0, o, [], [])
  {
    NoFragments(o);
    assert Zeros(0) == [];
  }

  lemma FirstCut(o: nat, fs: seq<Fragment>, k: nat) returns (torn: Bytes)
    requires o <= BLOCK && fs != [] && Fits(o, fs[0]) && k < |Chunk(o, fs[0])|
    ensures CutAt(o, [], fs, k, o, torn, Chunk(o, fs[0])[..k])
    ensures |torn| == if k <= |Trailer(o)| then 0 else k - |Trailer(o)|
  {
    hide Physical;
    var none: Bytes := [];
    NoFragments(o);
    var f := fs[0];
    if k <= |Trailer(o)| {
      torn := [];
      assert Chunk(o, f)[..k] == none + Zeros(k);
    } else {
      torn := Physical(f)[..k - |Trailer(o)|];
      assert Chunk(o, f)[..k] == none + (Trailer(o) + torn);
    }
  }

  lemma CutLonger(o: nat, f: Fragment, front: seq<Fragment>, rest: seq<Fragment>, k: nat, p: nat, torn: Bytes,
                  cut: Bytes)
    requires o <= BLOCK && Fits(o, f) && CutAt(After(o, f), front, rest, k, p, torn, cut)
    ensures CutAt(o, [f] + front, rest, |Chunk(o, f)| + k, p, torn, Chunk(o, f) + cut)
  {
    hide Physical, Layout, AllFit, Chunk, Trailer, IsTorn, AfterAll;
    FirstFragment(o, f, front);
    var head := Layout(After(o, f), front);
    Regroup(Chunk(o, f), head, if torn == [] then Zeros(k - |head|) else Trailer(p) + torn, []);
  }

  // ---------- writing on behind a cut ----------

  /** A log cut off after `k` bytes, with records written on by a writer that knows only the length of the file. */
  function WrittenOn(fs: seq<Fragment>, k: nat, later: seq<Bytes>): Bytes
    requires AllFit(0, fs) && k <= |Layout(0, fs)|
  {
    AllFragmentsFit(k % BLOCK, later);
    Layout(0, fs)[..k] + Layout(k % BLOCK, AllFragments(k % BLOCK, later))
  }

  /** The fragments that lie wholly in front of the cut, the records they say, and what they leave unfinished. */
  function Front(fs: seq<Fragment>, k: nat): seq<Fragment>
    requires AllFit(0, fs)
  {
    fs[..WholeCount(0, fs, k)]
  }

  function Kept(fs: seq<Fragment>, k: nat): seq<Bytes>
    requires AllFit(0, fs)
  {
    RecordsOf(Front(fs, k), None)
  }

  function Held(fs: seq<Fragment>, k: nat): Option<Bytes>
    requires AllFit(0, fs)
  {
    PendingAfter(Front(fs, k), None)
  }

  /** The bytes from the torn fragment to the end of its block pass for a fragment: a collision of checksums, or the
      missing bytes written by chance. */
  ghost predicate Collides(fs: seq<Fragment>, k: nat, later: seq<Bytes>)
    requires AllFit(0, fs) && k <= |Layout(0, fs)|
  {
    Torn(0, fs, k) > 0 && Passes(BlockAtTear(fs, k, later))
  }

  /** The bytes from the torn fragment to the end of its block. */
  ghost function BlockAtTear(fs: seq<Fragment>, k: nat, later: seq<Bytes>): Bytes
    requires AllFit(0, fs) && k <= |Layout(0, fs)|
  {
    var torn := Torn(0, fs, k);
    var from := if torn <= k then k - torn else 0;
    var end := from - from % BLOCK + BLOCK;
    var file := WrittenOn(fs, k, later);
    if from > |file| then [] else file[from..if end <= |file| then end else |file|]
  }

  /** Behind a cut at the edge of a fragment, everything written later reads back. */
  lemma EdgeReuse(fs: seq<Fragment>, k: nat, later: seq<Bytes>)
    requires AllFit(0, fs) && Typed(fs) && k <= |Layout(0, fs)| && Torn(0, fs, k) == 0
    ensures AllRecords(Cursor([], WrittenOn(fs, k, later), false, 0)).0 == Kept(fs, k) + later
    ensures AllRecords(Cursor([], WrittenOn(fs, k, later), false, 0)).1.reports
         == ReportsOf(Front(fs, k), None) + if later != [] && Unfinished(Held(fs, k)) then 1 else 0
  {
    hide AllRecords, RecordsOf, ReportsOf, Layout, AllFit, AllFragments, AfterAll, WholeCount, Torn, Trailer;
    var torn := CutIs(0, fs, k);
    var m := WholeCount(0, fs, k);
    var front := fs[..m];
    var p := AfterAll(0, front);
    var fill := k - |Layout(0, front)|;
    var cut := Layout(0, fs)[..k];
    assert |cut| == k;
    EdgeOffset(cut, front, fill);
    var more := AllFragments(k % BLOCK, later);
    AllFragmentsFit(k % BLOCK, later);
    AllFragmentsTyped(k % BLOCK, later);
    RecordsOfAll(k % BLOCK, later, PendingAfter(front, None));
    RecordsOfAppend(front, more, None);
    ReportsOfAll(k % BLOCK, later, PendingAfter(front, None));
    ReportsOfAppend(front, more, None);
    var all := front + more;
    if more == [] {
      NoFragments(k % BLOCK);
      assert later == [];
      assert all == front && WrittenOn(fs, k, later) == cut;
      EdgeReads(cut, front, fill);
    } else {
      GoesOn(p, fill, k % BLOCK, more);
      FitAppend(0, front, more);
      Regroup(Layout(0, front), Zeros(fill), Layout(k % BLOCK, more), []);
      assert WrittenOn(fs, k, later) == Layout(0, all) + Zeros(0);
      AfterMore(p, more, k % BLOCK, later);
      EdgeReads(WrittenOn(fs, k, later), all, 0);
    }
  }

  lemma AfterMore(p: nat, more: seq<Fragment>, b: nat, later: seq<Bytes>)
    requires b <= BLOCK && more == AllFragments(b, later) && AfterAll(b, more) == AfterAll(p, more)
    ensures AfterAll(p, more) <= BLOCK
  {
    AllFragmentsFit(b, later);
  }

  /** Behind a torn fragment, only what starts in a later block reads back. */
  lemma TornReuse(fs: seq<Fragment>, k: nat, later: seq<Bytes>)
    requires AllFit(0, fs) && Typed(fs) && k <= |Layout(0, fs)| && Torn(0, fs, k) > 0
    requires later == [] || !Collides(fs, k, later)
    ensures AllRecords(Cursor([], WrittenOn(fs, k, later), false, 0)).0
         == Kept(fs, k) + RecordsOf(NextBlock(k % BLOCK, AllFragments(k % BLOCK, later)), None)
    ensures later == [] ==>
              AllRecords(Cursor([], WrittenOn(fs, k, later), false, 0)).1.reports == ReportsOf(Front(fs, k), None)
    ensures later != [] && |WrittenOn(fs, k, later)| >= k - k % BLOCK + BLOCK ==>
              AllRecords(Cursor([], WrittenOn(fs, k, later), false, 0)).1.reports
              == ReportsOf(Front(fs, k), None) + Dropped(BlockAtTear(fs, k, later), Held(fs, k).Some?)
                 + ReportsOf(NextBlock(k % BLOCK, AllFragments(k % BLOCK, later)), None)
    ensures later != [] && |WrittenOn(fs, k, later)| < k - k % BLOCK + BLOCK && Overlong(BlockAtTear(fs, k, later)) ==>
              AllRecords(Cursor([], WrittenOn(fs, k, later), false, 0)).1.reports == ReportsOf(Front(fs, k), None)
  {
    hide AllRecords, RecordsOf, ReportsOf, Layout, AllFit, AllFragments, AfterAll, WholeCount, Torn, Trailer, NextBlock;
    hide Leads, RecordsFrom, ReportsFrom, Passes, Physical, Dropped, Overlong;
    var torn := CutIs(0, fs, k);
    var m := WholeCount(0, fs, k);
    var front, f := fs[..m], fs[m..][0];
    var p := AfterAll(0, front);
    var e := k % BLOCK;
    var more := AllFragments(e, later);
    AllFragmentsFit(e, later);
    AllFragmentsTyped(e, later);
    var written := Layout(e, more);
    var file := WrittenOn(fs, k, later);
    Regroup(Layout(0, front), Trailer(p) + torn, written, []);
    assert Trailer(p) + torn + written == Trailer(p) + (torn + written);
    var tail := Trailer(p) + (torn + written);
    var c := Cursor([], file, false, 0);
    StartLeads(c, front, tail);
    var d, i, s := FragmentsRead(c, BLOCK, front, tail, false, [], None);
    FromTheStart(c);
    TornOffset(fs, k, front, fs[m..], p, torn);
    var q := AfterAll(BLOCK, front);
    SameSpotAfter(front, p, q);
    if later == [] {
      MoreNothing(e);
      assert torn + written == torn;
      TornIsFront(q, f, torn);
      TornEnd(d, q, f, tail, i, s);
    } else {
      SomeFragments(e, later);
      TearIs(fs, k, later, front, fs[m..], p, torn);
      TornThen(d, q, torn, e, more, written, i, s);
    }
  }

  /** Where the torn fragment starts, and where the writer goes on behind it. */
  lemma TornOffset(fs: seq<Fragment>, k: nat, front: seq<Fragment>, rest: seq<Fragment>, p: nat, torn: Bytes)
    requires AllFit(0, fs) && k <= |Layout(0, fs)| && torn != []
    requires CutAt(0, front, rest, k, p, torn, Layout(0, fs)[..k])
    ensures Start(p) + |torn| == k % BLOCK < BLOCK
    ensures k == |Layout(0, front)| + |Trailer(p)| + |torn| && (k - |torn|) % BLOCK == Start(p)
  {
    hide Physical, Layout, AllFit, AfterAll;
    LayoutLength(0, front);
    var n, j := |Layout(0, front)|, |torn|;
    assert |Layout(0, fs)[..k]| == n + (|Trailer(p)| + j);
    var from := n + |Trailer(p)|;
    if BLOCK < p + HEADER {
      SumMod(n, p, BLOCK - p);
    } else {
      SumMod(n, p, 0);
    }
    assert from % BLOCK == Start(p);
    SumMod(from, Start(p), j);
  }

  lemma SameSpotAfter(front: seq<Fragment>, p: nat, q: nat)
    requires AllFit(0, front) && p == AfterAll(0, front) <= BLOCK && q == AfterAll(BLOCK, front)
    ensures q <= BLOCK && Start(p) == Start(q) && Trailer(p) == Trailer(q)
    ensures forall f :: Fits(p, f) <==> Fits(q, f)
  {
    FillAfter(front, 0);
  }

  lemma MoreNothing(e: nat)
    requires e <= BLOCK
    ensures AllFragments(e, []) == [] && AllFit(e, []) && Layout(e, []) == [] && RecordsOf(NextBlock(e, []), None) == []
  {
    NoFragments(e);
  }

  lemma SomeFragments(e: nat, later: seq<Bytes>)
    requires e <= BLOCK && later != []
    ensures AllFragments(e, later) != []
  {
  }

  lemma TornIsFront(o: nat, f: Fragment, torn: Bytes)
    requires o <= BLOCK && Fits(o, f) && torn <= Physical(f) && torn != Physical(f)
    ensures Trailer(o) + torn <= Chunk(o, f) && Trailer(o) + torn != Chunk(o, f)
  {
    hide Physical;
    assert Physical(f) == torn + Physical(f)[|torn|..];
    assert Chunk(o, f) == (Trailer(o) + torn) + Physical(f)[|torn|..];
  }

  /** What the reader looks at from the torn fragment on. */
  lemma TearIs(fs: seq<Fragment>, k: nat, later: seq<Bytes>, whole: seq<Fragment>, rest: seq<Fragment>, p: nat,
               torn: Bytes)
    requires AllFit(0, fs) && k <= |Layout(0, fs)| && torn != [] && |torn| == Torn(0, fs, k)
    requires CutAt(0, whole, rest, k, p, torn, Layout(0, fs)[..k])
    ensures k % BLOCK <= BLOCK && AllFit(k % BLOCK, AllFragments(k % BLOCK, later))
    ensures BlockAtTear(fs, k, later) == InBlock(p, torn + Layout(k % BLOCK, AllFragments(k % BLOCK, later)))
    ensures |WrittenOn(fs, k, later)| >= k - k % BLOCK + BLOCK
       <==> |torn + Layout(k % BLOCK, AllFragments(k % BLOCK, later))| >= BLOCK - Start(p)
  {
    hide Physical, Layout, AllFit, AfterAll, AllFragments, Torn;
    var e := k % BLOCK;
    AllFragmentsFit(e, later);
    TornOffset(fs, k, whole, rest, p, torn);
    var written := Layout(e, AllFragments(e, later));
    var u := torn + written;
    var front := Layout(0, whole) + Trailer(p);
    Regroup(Layout(0, whole), Trailer(p), torn, written);
    Regroup(Layout(0, whole), Trailer(p), torn, []);
    assert WrittenOn(fs, k, later) == front + u;
    SameBlock(|front|, |torn|, k, Start(p));
    assert BlockAtTear(fs, k, later) == InBlock(p, u) by { BlockOf(front, u, p); }
  }

  lemma SameBlock(from: nat, torn: nat, k: nat, start: nat)
    requires k == from + torn && from % BLOCK == start && start + torn == k % BLOCK
    ensures k - k % BLOCK == from - start
  {
  }

  lemma BlockOf(front: Bytes, u: Bytes, p: nat)
    requires |front| % BLOCK == Start(p) <= BLOCK
    ensures var end := |front| - Start(p) + BLOCK;
            (front + u)[|front|..if end <= |front + u| then end else |front + u|] == InBlock(p, u)
  {
  }

  // ---------- exactly when a reused log keeps what is written to it ----------

  /** The later fragments of a record without the first say nothing. */
  lemma {:induction false} TailSaysNothing(o: nat, data: Bytes, more: seq<Fragment>)
    requires o <= BLOCK
    ensures RecordsOf(Fragments(o, false, data) + more, None) == RecordsOf(more, None)
    decreases |data|, if Start(o) + HEADER == BLOCK then 1 else 0
  {
    hide RecordsOf, Fragments, Cut;
    var n := Cut(o, data);
    var f := Fragment(KindOf(false, n == |data|), data[..n]);
    FirstOfRecord(o, false, data);
    if n == |data| {
      RecordsFirst(f, more, None);
    } else {
      var after := Fragments(BLOCK, false, data[n..]);
      assert [f] + after + more == [f] + (after + more);
      RecordsFirst(f, after + more, None);
      TailSaysNothing(BLOCK, data[n..], more);
    }
  }

  /** A record that starts in the block that is given up does not come back. */
  lemma {:induction false} FewerRecords(o: nat, rs: seq<Bytes>)
    requires o <= BLOCK
    ensures |RecordsOf(NextBlock(o, AllFragments(o, rs)), None)| <= |rs|
    ensures rs != [] && o + HEADER <= BLOCK ==> |RecordsOf(NextBlock(o, AllFragments(o, rs)), None)| < |rs|
    decreases |rs|
  {
    hide RecordsOf, Fragments, Cut, AllFit, Layout, AfterAll, NextBlock, AllFragments;
    if rs == [] {
      MoreNothing(o);
    } else if BLOCK < o + HEADER {
      NextIsAll(o, AllFragments(o, rs));
      RecordsOfAll(o, rs, None);
    } else {
      var data := rs[0];
      var n := Cut(o, data);
      var f := Fragment(KindOf(true, n == |data|), data[..n]);
      FirstOfRecord(o, true, data);
      SizeFirst(o, rs);
      var p := AfterAll(o, Fragments(o, true, data));
      var more := AllFragments(p, rs[1..]);
      if n == |data| {
        NextDrops(o, f, more);
        OneAfter(o, f);
        FewerRecords(p, rs[1..]);
      } else {
        var after := Fragments(BLOCK, false, data[n..]);
        assert [f] + after + more == [f] + (after + more);
        NextDrops(o, f, after + more);
        NextIsAll(BLOCK, after + more);
        TailSaysNothing(BLOCK, data[n..], more);
        RecordsOfAll(p, rs[1..], None);
      }
    }
  }

  lemma NextIsAll(o: nat, fs: seq<Fragment>)
    requires BLOCK < o + HEADER
    ensures NextBlock(o, fs) == fs
  {
  }

  lemma NextDrops(o: nat, f: Fragment, more: seq<Fragment>)
    requires o + HEADER <= BLOCK
    ensures NextBlock(o, [f] + more) == NextBlock(After(o, f), more)
  {
    assert ([f] + more)[1..] == more;
  }

  lemma OneAfter(o: nat, f: Fragment)
    ensures AfterAll(o, [f]) == After(o, f)
  {
    assert [f][1..] == [];
  }

  /** A reused log gives back what it held and all that was written later if and only if nothing was written, or the
      crash cut it at the edge of a fragment, or so close to the end of a block that no fragment fits behind the cut. */
  lemma ReusedLogIff(fs: seq<Fragment>, k: nat, later: seq<Bytes>)
    requires AllFit(0, fs) && Typed(fs) && k <= |Layout(0, fs)|
    requires later == [] || !Collides(fs, k, later)
    ensures AllRecords(Cursor([], WrittenOn(fs, k, later), false, 0)).0 == Kept(fs, k) + later
       <==> later == [] || Torn(0, fs, k) == 0 || BLOCK < k % BLOCK + HEADER
  {
    hide AllRecords, RecordsOf, Layout, AllFit, AllFragments, Torn, NextBlock, Collides, WrittenOn, Kept;
    var b := k % BLOCK;
    if Torn(0, fs, k) == 0 {
      EdgeReuse(fs, k, later);
    } else {
      TornReuse(fs, k, later);
      FewerRecords(b, later);
      var more := AllFragments(b, later);
      if later == [] {
        MoreNothing(b);
      } else if BLOCK < b + HEADER {
        NextIsAll(b, more);
        RecordsOfAll(b, later, None);
      }
    }
  }

  /** What recovery reads of the log that was cut off: the records wholly in front of the cut, wherever it falls. */
  lemma CutReads(fs: seq<Fragment>, k: nat)
    requires AllFit(0, fs) && Typed(fs) && k <= |Layout(0, fs)|
    ensures AllRecords(Cursor([], Layout(0, fs)[..k], false, 0)).0 == Kept(fs, k)
  {
    hide AllRecords, RecordsOf, Layout, AllFit, AllFragments, Torn, NextBlock, Kept;
    MoreNothing(k % BLOCK);
    assert WrittenOn(fs, k, []) == Layout(0, fs)[..k];
    if Torn(0, fs, k) == 0 {
      EdgeReuse(fs, k, []);
    } else {
      TornReuse(fs, k, []);
    }
    assert Kept(fs, k) + [] == Kept(fs, k);
  }

  /** If the header of the torn fragment is whole and what is written later does not reach the end of that fragment, the
      reader takes the end of the file for a cut: nothing written later comes back. */
  lemma ShortWriteIsLost(fs: seq<Fragment>, k: nat, later: seq<Bytes>)
    requires AllFit(0, fs) && Typed(fs) && k <= |Layout(0, fs)| && Torn(0, fs, k) >= HEADER
    requires var m := WholeCount(0, fs, k);
             m < |fs| && |WrittenOn(fs, k, later)| - k < HEADER + |fs[m].data| - Torn(0, fs, k)
    ensures AllRecords(Cursor([], WrittenOn(fs, k, later), false, 0)).0 == Kept(fs, k)
    ensures AllRecords(Cursor([], WrittenOn(fs, k, later), false, 0)).1.reports == ReportsOf(Front(fs, k), None)
  {
    hide AllRecords, RecordsOf, Layout, AllFit, AllFragments, AfterAll, WholeCount, Torn, Trailer, NextBlock, Physical;
    hide ReportsOf, Collides, Overlong, BlockAtTear, Dropped;
    var torn := CutIs(0, fs, k);
    var m := WholeCount(0, fs, k);
    var front, rest := fs[..m], fs[m..];
    var p := AfterAll(0, front);
    var f := rest[0];
    var e := k % BLOCK;
    AllFragmentsFit(e, later);
    var more := AllFragments(e, later);
    var written := Layout(e, more);
    var file := WrittenOn(fs, k, later);
    TornOffset(fs, k, front, rest, p, torn);
    Regroup(Layout(0, front), Trailer(p), torn, written);
    Regroup(Layout(0, front), Trailer(p), torn, []);
    var before := Layout(0, front) + Trailer(p);
    assert file == before + (torn + written);
    assert Start(p) + HEADER + |f.data| <= BLOCK && |torn + written| < HEADER + |f.data|;
    TornTooShort(fs, k, later, before, f, torn, written);
    TornReuse(fs, k, later);
    BlockSplit(e, more);
    assert NextBlock(e, more) == [];
    RecordsOfNone(None);
    assert Kept(fs, k) + [] == Kept(fs, k);
  }

  lemma TornTooShort(fs: seq<Fragment>, k: nat, later: seq<Bytes>, before: Bytes, f: Fragment, torn: Bytes,
                     written: Bytes)
    requires AllFit(0, fs) && k <= |Layout(0, fs)| && |torn| == Torn(0, fs, k) >= HEADER && |f.data| < BLOCK
    requires torn <= Physical(f) && |torn + written| < HEADER + |f.data|
    requires WrittenOn(fs, k, later) == before + (torn + written) && |before| == k - |torn|
    requires |before| % BLOCK + HEADER + |f.data| <= BLOCK
    ensures !Collides(fs, k, later)
    ensures Overlong(BlockAtTear(fs, k, later)) && |WrittenOn(fs, k, later)| < k - k % BLOCK + BLOCK
  {
    hide Physical, Layout, AllFit, AllFragments, Torn, ChecksumOk, Length, WrittenOn;
    var b := torn + written;
    var from := |before|;
    var end := from - from % BLOCK + BLOCK;
    var file := before + b;
    assert |file| <= end;
    assert file[from..|file|] == b;
    LengthKept(f, torn, written);
    var start := from % BLOCK;
    assert k == (from - start) + (start + |torn|) && start + |torn| < BLOCK;
    InTheBlock(from - start, start + |torn|);
  }

  lemma InTheBlock(base: nat, j: nat)
    requires base % BLOCK == 0 && j < BLOCK
    ensures (base + j) % BLOCK == j
  {
  }

  lemma LengthKept(f: Fragment, torn: Bytes, written: Bytes)
    requires |f.data| < BLOCK && HEADER <= |torn| && torn <= Physical(f)
    ensures Length(torn + written) == |f.data|
  {
    hide ChecksumOk;
    ChecksumAgrees(f, []);
    assert Physical(f) + [] == Physical(f);
    assert (torn + written)[4] == Physical(f)[4] && (torn + written)[5] == Physical(f)[5];
  }

  /** For example: a crash leaves `j` bytes of a record's fragment, its header among them, and the next write after
      reopening is shorter than what is missing.  The reader gives back what was there before and neither record behind
      it, without a report. */
  lemma WriteBehindTearIsLost(a: Bytes, b: Bytes, c: Bytes, j: nat)
    requires |a| <= 1000 && |b| <= 2000 && HEADER <= j && j + HEADER + |c| < HEADER + |b|
    ensures var fs, k := AllFragments(0, [a, b]), |LogBytes([a])| + j;
            && AllFit(0, fs) && k <= |Layout(0, fs)|
            && AllRecords(Cursor([], WrittenOn(fs, k, [c]), false, 0)).0 == [a]
            && AllRecords(Cursor([], WrittenOn(fs, k, [c]), false, 0)).1.reports == 0
  {
    hide AllRecords, RecordsOf, ReportsOf, Physical, WrittenOn, Kept;
    var fa, fb := Fragment(FULL, a), Fragment(FULL, b);
    var o := HEADER + |a|;
    OneFragmentLog(0, a);
    OneFragmentLog(o, b);
    AllOne(0, a);
    AllOne(o, b);
    assert [a, b][1..] == [b];
    assert AllFragments(0, [a, b]) == [fa] + [fb];
    var fs := [fa, fb];
    AllFragmentsFit(0, [a, b]);
    AllFragmentsTyped(0, [a, b]);
    assert fs == [fa] + [fb] && fs[1..] == [fb] && [fb][1..] == [] && [fa][1..] == [];
    FirstFragment(0, fa, [fb]);
    FirstFragment(0, fa, []);
    FirstFragment(o, fb, []);
    assert [fb] + [] == [fb] && [fa] + [] == [fa];
    NoFragments(o);
    NoFragments(After(o, fb));
    assert Trailer(0) == [] && Trailer(o) == [];
    var k := |LogBytes([a])| + j;
    assert |Chunk(0, fa)| == o && |Chunk(o, fb)| == HEADER + |b|;
    assert k == o + j && |Layout(0, fs)| == o + HEADER + |b|;
    assert WholeCount(0, fs, k) == 1 && Torn(0, fs, k) == j;
    assert k % BLOCK == k;
    ShortLog(fs, k, c);
    ShortWriteIsLost(fs, k, [c]);
    assert fs[..1] == [fa];
    OneFragment(fa, None);
    assert Kept(fs, k) == [a] && Front(fs, k) == [fa] by { KeptIs(fs, k, [fa]); }
  }

  lemma KeptIs(fs: seq<Fragment>, k: nat, front: seq<Fragment>)
    requires AllFit(0, fs) && fs[..WholeCount(0, fs, k)] == front
    ensures Kept(fs, k) == RecordsOf(front, None) && Front(fs, k) == front
  {
  }

  lemma AllOne(o: nat, data: Bytes)
    requires o <= BLOCK
    ensures AllFragments(o, [data]) == Fragments(o, true, data)
  {
    assert [data][1..] == [];
    assert Fragments(o, true, data) + [] == Fragments(o, true, data);
  }

  lemma OneFragmentLog(o: nat, data: Bytes)
    requires o + HEADER + |data| <= BLOCK
    ensures Fragments(o, true, data) == [Fragment(FULL, data)]
    ensures AfterAll(o, [Fragment(FULL, data)]) == o + HEADER + |data|
  {
    assert data[..|data|] == data;
    OneAfter(o, Fragment(FULL, data));
  }

  lemma ShortLog(fs: seq<Fragment>, k: nat, c: Bytes)
    requires AllFit(0, fs) && k <= |Layout(0, fs)| && k % BLOCK + HEADER + |c| <= BLOCK
    ensures |WrittenOn(fs, k, [c])| == k + HEADER + |c|
  {
    hide Physical;
    var o := k % BLOCK;
    var f := Fragment(FULL, c);
    OneFragmentLog(o, c);
    AllOne(o, c);
    assert [f] + [] == [f];
    FirstFragment(o, f, []);
    NoFragments(After(o, f));
  }
}
