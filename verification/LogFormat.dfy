/** The log format: records cut into fragments, fragments packed into blocks (db/log_format.h, db/log_writer.cc). */
module LogFormat {
  import opened InternalKeys
  import opened Crc32c
  import opened Masking

  const BLOCK: nat := 32768
  const HEADER: nat := 7

  const ZERO_TYPE: byte := 0
  const FULL: byte := 1
  const FIRST: byte := 2
  const MIDDLE: byte := 3
  const LAST: byte := 4

  datatype Fragment = Fragment(kind: byte, data: Bytes)

  /** Where in its block a fragment starts when the writer stands at `o`: never in the last six bytes. */
  function Start(o: nat): nat
  {
    if BLOCK < o + HEADER then 0 else o
  }

  /** Zero bytes that fill a block whose rest cannot hold a header. */
  function Trailer(o: nat): Bytes
    requires o <= BLOCK
  {
    if BLOCK < o + HEADER then Zeros(BLOCK - o) else []
  }

  function Zeros(n: nat): (z: Bytes)
    ensures |z| == n
  {
    seq(n, i => 0)
  }

  function After(o: nat, f: Fragment): nat {
    Start(o) + HEADER + |f.data|
  }

  predicate Fits(o: nat, f: Fragment) {
    After(o, f) <= BLOCK
  }

  /** Checksum over the type and the payload, length, type. */
  function Header(f: Fragment): (h: Bytes)
    requires |f.data| < BLOCK
    ensures |h| == HEADER
  {
    Fixed32(Mask(Extend(Checksum([f.kind]), f.data)))
      + [(|f.data| % 256) as byte, (|f.data| / 256) as byte, f.kind]
  }

  function Physical(f: Fragment): (p: Bytes)
    requires |f.data| < BLOCK
    ensures |p| == HEADER + |f.data|
  {
    Header(f) + f.data
  }

  predicate AllFit(o: nat, fs: seq<Fragment>)
    decreases |fs|
  {
    fs == [] || (Fits(o, fs[0]) && AllFit(After(o, fs[0]), fs[1..]))
  }

  /** The bytes of a list of fragments written from offset `o` of a block. */
  function Layout(o: nat, fs: seq<Fragment>): Bytes
    requires o <= BLOCK && AllFit(o, fs)
    decreases |fs|
  {
    if fs == [] then []
    else Chunk(o, fs[0]) + Layout(After(o, fs[0]), fs[1..])
  }

  /** One fragment and the block trailer before it. */
  function Chunk(o: nat, f: Fragment): (b: Bytes)
    requires o <= BLOCK && Fits(o, f)
    ensures |b| >= HEADER
  {
    Trailer(o) + Physical(f)
  }

  function AfterAll(o: nat, fs: seq<Fragment>): nat
    decreases |fs|
  {
    if fs == [] then o else AfterAll(After(o, fs[0]), fs[1..])
  }

  function KindOf(begin: bool, end: bool): byte {
    if begin && end then FULL else if begin then FIRST else if end then LAST else MIDDLE
  }

  /** How much of the record goes into the block the writer stands in. */
  function Cut(o: nat, data: Bytes): (n: nat)
    requires o <= BLOCK
    ensures n <= |data| && Start(o) + HEADER + n <= BLOCK
    ensures n < |data| ==> Start(o) + HEADER + n == BLOCK
  {
    var avail := BLOCK - Start(o) - HEADER;
    if |data| < avail then |data| else avail
  }

  /** The fragments of one record: as few as possible, all but the last filling their block. */
  function Fragments(o: nat, begin: bool, data: Bytes): (fs: seq<Fragment>)
    requires o <= BLOCK
    ensures |fs| > 0
    decreases |data|, if Start(o) + HEADER == BLOCK then 1 else 0
  {
    var n := Cut(o, data);
    var f := Fragment(KindOf(begin, n == |data|), data[..n]);
    if n == |data| then [f] else [f] + Fragments(BLOCK, false, data[n..])
  }

  lemma {:induction false} FragmentsFit(o: nat, begin: bool, data: Bytes)
    requires o <= BLOCK
    ensures AllFit(o, Fragments(o, begin, data)) && AfterAll(o, Fragments(o, begin, data)) <= BLOCK
    decreases |data|, if Start(o) + HEADER == BLOCK then 1 else 0
  {
    var n := Cut(o, data);
    var f := Fragment(KindOf(begin, n == |data|), data[..n]);
    if n == |data| {
      assert [f][1..] == [];
    } else {
      FragmentsFit(BLOCK, false, data[n..]);
      assert ([f] + Fragments(BLOCK, false, data[n..]))[1..] == Fragments(BLOCK, false, data[n..]);
    }
  }

  /** The payloads of the fragments of a record, in order, are the record. */
  function Payload(fs: seq<Fragment>): Bytes {
    if fs == [] then [] else fs[0].data + Payload(fs[1..])
  }

  lemma {:induction false} FragmentsCarryRecord(o: nat, begin: bool, data: Bytes)
    requires o <= BLOCK
    ensures Payload(Fragments(o, begin, data)) == data
    decreases |data|, if Start(o) + HEADER == BLOCK then 1 else 0
  {
    var n := Cut(o, data);
    var f := Fragment(KindOf(begin, n == |data|), data[..n]);
    if n == |data| {
      assert [f][1..] == [];
    } else {
      FragmentsCarryRecord(BLOCK, false, data[n..]);
      assert ([f] + Fragments(BLOCK, false, data[n..]))[1..] == Fragments(BLOCK, false, data[n..]);
    }
  }

  // ---------- whole logs ----------

  /** The fragments of a list of records written from offset `o`. */
  function AllFragments(o: nat, records: seq<Bytes>): (fs: seq<Fragment>)
    requires o <= BLOCK
    decreases |records|
  {
    if records == [] then []
    else
      var fs := Fragments(o, true, records[0]);
      FragmentsFit(o, true, records[0]);
      fs + AllFragments(AfterAll(o, fs), records[1..])
  }

  /** What a first fragment contributes. */
  lemma FirstFragment(o: nat, f: Fragment, fs: seq<Fragment>)
    requires o <= BLOCK
    ensures AllFit(o, [f] + fs) <==> Fits(o, f) && AllFit(After(o, f), fs)
    ensures AfterAll(o, [f] + fs) == AfterAll(After(o, f), fs)
    ensures AllFit(o, [f] + fs) ==> Layout(o, [f] + fs) == Chunk(o, f) + Layout(After(o, f), fs)
  {
    hide Chunk;
    assert ([f] + fs)[1..] == fs;
  }

  lemma {:induction false} FitAppend(o: nat, a: seq<Fragment>, b: seq<Fragment>)
    requires o <= BLOCK && AllFit(o, a) && AfterAll(o, a) <= BLOCK && AllFit(AfterAll(o, a), b)
    ensures AllFit(o, a + b) && AfterAll(o, a + b) == AfterAll(AfterAll(o, a), b)
    ensures Layout(o, a + b) == Layout(o, a) + Layout(AfterAll(o, a), b)
    decreases |a|
  {
    hide Chunk, AllFit, Layout, AfterAll;
    if a == [] {
      assert a + b == b;
      NoFragments(o);
    } else {
      var f := a[0];
      assert a == [f] + a[1..];
      FirstFragment(o, f, a[1..]);
      FitAppend(After(o, f), a[1..], b);
      assert a + b == [f] + (a[1..] + b);
      FirstFragment(o, f, a[1..] + b);
    }
  }

  lemma {:induction false} AllFragmentsFit(o: nat, records: seq<Bytes>)
    requires o <= BLOCK
    ensures AllFit(o, AllFragments(o, records)) && AfterAll(o, AllFragments(o, records)) <= BLOCK
    decreases |records|
  {
    hide Fragments, Layout;
    if records != [] {
      var fs := Fragments(o, true, records[0]);
      FragmentsFit(o, true, records[0]);
      AllFragmentsFit(AfterAll(o, fs), records[1..]);
      FitAppend(o, fs, AllFragments(AfterAll(o, fs), records[1..]));
    }
  }

  /** The log file that holds `records`. */
  function LogBytes(records: seq<Bytes>): Bytes {
    AllFragmentsFit(0, records);
    Layout(0, AllFragments(0, records))
  }

  /** Where the writer stands after `records`. */
  function LogOffset(records: seq<Bytes>): nat {
    AfterAll(0, AllFragments(0, records))
  }

  lemma {:induction false} AllFragmentsAppend(o: nat, rs: seq<Bytes>, r: Bytes)
    requires o <= BLOCK
    ensures AfterAll(o, AllFragments(o, rs)) <= BLOCK
    ensures AllFragments(o, rs + [r])
         == AllFragments(o, rs) + Fragments(AfterAll(o, AllFragments(o, rs)), true, r)
    decreases |rs|
  {
    hide Fragments, Layout;
    AllFragmentsFit(o, rs);
    if rs == [] {
      assert rs + [r] == [r];
      assert [r][1..] == [];
      var fs := Fragments(o, true, r);
      FragmentsFit(o, true, r);
      assert AllFragments(AfterAll(o, fs), []) == [];
    } else {
      var fs := Fragments(o, true, rs[0]);
      FragmentsFit(o, true, rs[0]);
      var p := AfterAll(o, fs);
      AllFragmentsAppend(p, rs[1..], r);
      AllFragmentsFit(p, rs[1..]);
      FitAppend(o, fs, AllFragments(p, rs[1..]));
      assert (rs + [r])[1..] == rs[1..] + [r];
    }
  }

  /** A record is appended to the file without touching what is there. */
  lemma LogAppend(rs: seq<Bytes>, r: Bytes)
    ensures LogOffset(rs) <= BLOCK && AllFit(LogOffset(rs), Fragments(LogOffset(rs), true, r))
    ensures LogBytes(rs + [r]) == LogBytes(rs) + Layout(LogOffset(rs), Fragments(LogOffset(rs), true, r))
    ensures LogOffset(rs + [r]) == AfterAll(LogOffset(rs), Fragments(LogOffset(rs), true, r))
  {
    hide Fragments, Layout, AllFit, AfterAll, AllFragments;
    AllFragmentsFit(0, rs);
    AllFragmentsAppend(0, rs, r);
    FragmentsFit(LogOffset(rs), true, r);
    FitAppend(0, AllFragments(0, rs), Fragments(LogOffset(rs), true, r));
  }

  /** Offsets the writer cannot tell apart: a full block and the start of the next. */
  predicate SameSpot(a: nat, b: nat) {
    a == b || (a == 0 && b == BLOCK) || (a == BLOCK && b == 0)
  }

  lemma SameFragments(a: nat, b: nat, begin: bool, data: Bytes)
    requires a <= BLOCK && b <= BLOCK && SameSpot(a, b)
    ensures Fragments(a, begin, data) == Fragments(b, begin, data)
  {
  }

  lemma SameLayout(a: nat, b: nat, fs: seq<Fragment>)
    requires a <= BLOCK && b <= BLOCK && SameSpot(a, b) && AllFit(a, fs)
    ensures AllFit(b, fs) && Layout(a, fs) == Layout(b, fs)
    ensures fs != [] ==> AfterAll(a, fs) == AfterAll(b, fs)
  {
    hide Physical;
    if fs != [] && a != b {
      assert Trailer(a) == [] && Trailer(b) == [];
    }
  }

  /** The length of the file tells the writer's offset up to a full block, which is how a log is reopened. */
  lemma {:induction false} LayoutLength(o: nat, fs: seq<Fragment>)
    requires o <= BLOCK && AllFit(o, fs)
    ensures (o + |Layout(o, fs)|) % BLOCK == AfterAll(o, fs) % BLOCK
    decreases |fs|
  {
    hide Physical;
    if fs != [] {
      var o1 := After(o, fs[0]);
      LayoutLength(o1, fs[1..]);
      var n := |Layout(o1, fs[1..])|;
      if BLOCK < o + HEADER {
        assert o + |Layout(o, fs)| == BLOCK + o1 + n;
        AddBlock(o1 + n);
      } else {
        assert o + |Layout(o, fs)| == o1 + n;
      }
    }
  }

  lemma AddBlock(n: nat)
    ensures (BLOCK + n) % BLOCK == n % BLOCK
  {
  }

  // ---------- what a sequence of fragments says ----------

  /** The records in a sequence of fragments.  `pending` is what was read of a record whose end is to come; a record
      that begins before the one before it has ended takes its place. */
  function RecordsOf(fs: seq<Fragment>, pending: Option<Bytes>): seq<Bytes>
    decreases |fs|
  {
    if fs == [] then []
    else
      var f, more := fs[0], fs[1..];
      if f.kind == FULL then [f.data] + RecordsOf(more, None)
      else if f.kind == LAST && pending.Some? then [pending.value + f.data] + RecordsOf(more, None)
      else RecordsOf(more, Hold(f, pending))
  }

  /** What is held of a record after a fragment that does not end one. */
  function Hold(f: Fragment, pending: Option<Bytes>): Option<Bytes> {
    if f.kind == FIRST then Some(f.data)
    else if f.kind == MIDDLE && pending.Some? then Some(pending.value + f.data)
    else None
  }

  function PendingAfter(fs: seq<Fragment>, pending: Option<Bytes>): Option<Bytes>
    decreases |fs|
  {
    if fs == [] then pending else PendingAfter(fs[1..], Hold(fs[0], pending))
  }

  lemma {:induction false} RecordsOfAppend(a: seq<Fragment>, b: seq<Fragment>, pending: Option<Bytes>)
    ensures RecordsOf(a + b, pending) == RecordsOf(a, pending) + RecordsOf(b, PendingAfter(a, pending))
    decreases |a|
  {
    if a == [] {
      assert a + b == b;
    } else {
      assert (a + b)[1..] == a[1..] + b;
      RecordsOfAppend(a[1..], b, Hold(a[0], pending));
    }
  }

  /** The fragments of a record are that record, whatever was held before its first one. */
  lemma {:induction false} RecordsOfRecord(o: nat, begin: bool, data: Bytes, more: seq<Fragment>,
                                           pending: Option<Bytes>)
    requires o <= BLOCK && (begin || pending.Some?)
    ensures var held := if begin then [] else pending.value;
            RecordsOf(Fragments(o, begin, data) + more, pending) == [held + data] + RecordsOf(more, None)
    decreases |data|, if Start(o) + HEADER == BLOCK then 1 else 0
  {
    hide RecordsOf, Fragments, Cut;
    var n := Cut(o, data);
    var f := Fragment(KindOf(begin, n == |data|), data[..n]);
    var rest := data[n..];
    var held := if begin then [] else pending.value;
    FirstOfRecord(o, begin, data);
    if n == |data| {
      assert f.data == data;
      RecordsFirst(f, more, pending);
      assert [] + data == data;
    } else {
      var after := Fragments(BLOCK, false, rest);
      assert [f] + after + more == [f] + (after + more);
      RecordsFirst(f, after + more, pending);
      assert Hold(f, pending) == Some(held + data[..n]) by {
        assert [] + data[..n] == data[..n];
      }
      RecordsOfRecord(BLOCK, false, rest, more, Some(held + data[..n]));
      assert held + data[..n] + rest == held + data;
    }
  }

  lemma FirstOfRecord(o: nat, begin: bool, data: Bytes)
    requires o <= BLOCK
    ensures var n := Cut(o, data);
            var f := Fragment(KindOf(begin, n == |data|), data[..n]);
            Fragments(o, begin, data) == if n == |data| then [f] else [f] + Fragments(BLOCK, false, data[n..])
  {
  }

  lemma RecordsFirst(f: Fragment, more: seq<Fragment>, pending: Option<Bytes>)
    ensures RecordsOf([f] + more, pending) ==
              if f.kind == FULL then [f.data] + RecordsOf(more, None)
              else if f.kind == LAST && pending.Some? then [pending.value + f.data] + RecordsOf(more, None)
              else RecordsOf(more, Hold(f, pending))
  {
    assert ([f] + more)[1..] == more;
  }

  /** A whole log says its records, whatever was held before. */
  lemma {:induction false} RecordsOfAll(o: nat, records: seq<Bytes>, pending: Option<Bytes>)
    requires o <= BLOCK
    ensures RecordsOf(AllFragments(o, records), pending) == records
    decreases |records|
  {
    hide Fragments;
    if records != [] {
      var fs := Fragments(o, true, records[0]);
      FragmentsFit(o, true, records[0]);
      var p := AfterAll(o, fs);
      RecordsOfRecord(o, true, records[0], AllFragments(p, records[1..]), pending);
      RecordsOfAll(p, records[1..], None);
      assert [] + records[0] == records[0];
    }
  }

  /** Appending the fragments of a record appends the record. */
  lemma RecordsOfMore(fs: seq<Fragment>, o: nat, data: Bytes)
    requires o <= BLOCK
    ensures RecordsOf(fs + Fragments(o, true, data), None) == RecordsOf(fs, None) + [data]
  {
    hide RecordsOf, Fragments;
    RecordsOfAppend(fs, Fragments(o, true, data), None);
    RecordsOfRecord(o, true, data, [], PendingAfter(fs, None));
    assert Fragments(o, true, data) + [] == Fragments(o, true, data) && [] + data == data;
    RecordsOfNone(None);
  }

  lemma RecordsOfNone(pending: Option<Bytes>)
    ensures RecordsOf([], pending) == []
  {
  }

  // ---------- files that end at an edge ----------

  /** The file ends at the edge of a fragment: whole fragments, and perhaps some of the zeros that fill the block. */
  ghost predicate AtEdge(file: Bytes, fs: seq<Fragment>, fill: nat) {
    && AllFit(0, fs) && AfterAll(0, fs) <= BLOCK
    && fill <= |Trailer(AfterAll(0, fs))|
    && file == Layout(0, fs) + Zeros(fill)
  }

  /** What is written at the end of such a file, by a writer that knows its length only, goes on with its layout. */
  lemma GoesOn(p: nat, fill: nat, b: nat, fs: seq<Fragment>)
    requires p <= BLOCK && b <= BLOCK && fill <= |Trailer(p)| && SameSpot(b, p + fill)
    requires AllFit(b, fs) && fs != []
    ensures AllFit(p, fs) && Zeros(fill) + Layout(b, fs) == Layout(p, fs) && AfterAll(b, fs) == AfterAll(p, fs)
  {
    hide Physical, AllFit, Layout, AfterAll, Chunk, Trailer;
    SameLayout(b, p + fill, fs);
    var f, more := fs[0], fs[1..];
    assert fs == [f] + more;
    FirstFragment(p + fill, f, more);
    FirstFragment(p, f, more);
    FillChunk(p, fill, f);
    Regroup(Zeros(fill), Chunk(p + fill, f), Layout(After(p, f), more), []);
  }

  lemma FillChunk(p: nat, fill: nat, f: Fragment)
    requires p <= BLOCK && fill <= |Trailer(p)| && Fits(p + fill, f)
    ensures p + fill <= BLOCK && Fits(p, f) && After(p, f) == After(p + fill, f)
    ensures Zeros(fill) + Chunk(p + fill, f) == Chunk(p, f)
  {
    hide Physical;
    assert Zeros(fill) + Trailer(p + fill) == Trailer(p);
    Regroup(Zeros(fill), Trailer(p + fill), Physical(f), []);
  }

  /** The fragments of a record depend only on where the first one starts. */
  lemma SameStartFragments(p: nat, fill: nat, b: nat, data: Bytes)
    requires p <= BLOCK && b <= BLOCK && fill <= |Trailer(p)| && SameSpot(b, p + fill)
    ensures Fragments(b, true, data) == Fragments(p, true, data)
  {
    SameFragments(b, p + fill, true, data);
  }

  /** Where a writer stands that knows only the length of a file which ends at an edge. */
  lemma EdgeOffset(file: Bytes, fs: seq<Fragment>, fill: nat)
    requires AtEdge(file, fs, fill)
    ensures SameSpot(|file| % BLOCK, AfterAll(0, fs) + fill)
  {
    hide Layout, AllFit, AfterAll;
    LayoutLength(0, fs);
    var n, a := |Layout(0, fs)|, AfterAll(0, fs);
    assert |file| == n + fill;
    SumMod(n, a, fill);
  }

  lemma SumMod(n: nat, a: nat, z: nat)
    requires n % BLOCK == a % BLOCK && a + z <= BLOCK
    ensures SameSpot((n + z) % BLOCK, a + z)
  {
    if a == BLOCK {
      assert n % BLOCK == 0;
    } else {
      var q := n / BLOCK;
      assert n == q * BLOCK + a;
      if a + z == BLOCK {
        assert n + z == (q + 1) * BLOCK;
      } else {
        assert n + z == q * BLOCK + (a + z);
      }
    }
  }

  /** `Writer`: the destination file and the offset in its current block. */
  class Writer {
    var dest: Bytes
    var blockOffset: nat
    /** The fragments in the file, and how many zeros stand behind them. */
    ghost var fragments: seq<Fragment>
    ghost var fill: nat

    ghost predicate Valid()
      reads this
    {
      blockOffset <= BLOCK && AtEdge(dest, fragments, fill) && SameSpot(blockOffset, AfterAll(0, fragments) + fill)
    }

    /** The records the file holds. */
    ghost function Records(): seq<Bytes>
      reads this
    {
      RecordsOf(fragments, None)
    }

    constructor ()
      ensures Valid() && fragments == [] && Records() == [] && dest == []
    {
      dest, blockOffset, fragments, fill := [], 0, [], 0;
    }

    /** A writer that goes on with an existing log, of which it knows the length only.  The log may have been cut off
        behind any of its fragments. */
    constructor Reopen(file: Bytes, ghost fs: seq<Fragment>, ghost zeros: nat)
      requires AtEdge(file, fs, zeros)
      ensures Valid() && fragments == fs && fill == zeros && Records() == RecordsOf(fs, None) && dest == file
    {
      hide Layout, AllFragments, AfterAll, AllFit;
      dest, blockOffset, fragments, fill := file, |file| % BLOCK, fs, zeros;
      new;
      EdgeOffset(file, fs, zeros);
    }

    /** Appends one record as a sequence of fragments. */
    method AddRecord(data: Bytes)
      requires Valid()
      modifies this
      ensures Valid() && Records() == old(Records()) + [data] && fill == 0 && old(dest) <= dest
      ensures fragments == old(fragments + Fragments(AfterAll(0, fragments), true, data))
      ensures forall rs :: old(fragments) == AllFragments(0, rs) ==>
                fragments == AllFragments(0, rs + [data]) && dest == LogBytes(rs + [data])
    {
      hide Fragments, Layout, AllFit, LogOffset, AllFragments, RecordsOf, AfterAll;
      ghost var b, p, fs0 := blockOffset, AfterAll(0, fragments), fragments;
      ghost var fs := Fragments(p, true, data);
      FragmentsFit(b, true, data);
      FragmentsFit(p, true, data);
      SameStartFragments(p, fill, b, data);
      GoesOn(p, fill, b, fs);
      ghost var before := dest;
      EmitAll(data);
      FitAppend(0, fs0, fs);
      RecordsOfMore(fs0, p, data);
      Regroup(Layout(0, fs0), Zeros(fill), Layout(b, fs), []);
      fragments, fill := fs0 + fs, 0;
      assert dest == before + Layout(b, fs);
      assert dest == Layout(0, fragments);
      assert Layout(0, fragments) + Zeros(0) == Layout(0, fragments);
      forall rs | fs0 == AllFragments(0, rs) ensures fragments == AllFragments(0, rs + [data]) {
        AllFragmentsAppend(0, rs, data);
      }
    }

    /** The loop of `AddRecord`. */
    method EmitAll(data: Bytes)
      requires blockOffset <= BLOCK
      modifies this`dest, this`blockOffset
      ensures blockOffset <= BLOCK && AllFit(old(blockOffset), Fragments(old(blockOffset), true, data))
      ensures dest == old(dest) + Layout(old(blockOffset), Fragments(old(blockOffset), true, data))
      ensures blockOffset == AfterAll(old(blockOffset), Fragments(old(blockOffset), true, data))
    {
      hide Emitted, Trailer, Physical;
      var ptr, left, begin := 0, |data|, true;
      ghost var done: seq<Fragment> := [];
      ghost var o0, d0 := blockOffset, dest;
      NothingEmitted(d0, o0, data);
      while true
        invariant 0 <= ptr <= |data| && left == |data| - ptr && blockOffset <= BLOCK && (begin || left > 0)
        invariant Emitted(d0, o0, data, done, dest, blockOffset, begin, ptr)
        decreases left, if Start(blockOffset) + HEADER == BLOCK then 1 else 0
      {
        ghost var o, d := blockOffset, dest;
        SwitchBlock();
        var avail := BLOCK - blockOffset - HEADER;
        var fragmentLength := if left < avail then left else avail;
        var end := left == fragmentLength;
        var kind := if begin && end then FULL else if begin then FIRST else if end then LAST else MIDDLE;
        EmitPhysicalRecord(kind, data[ptr..ptr + fragmentLength]);
        ghost var f := Fragment(kind, data[ptr..ptr + fragmentLength]);
        EmitOne(d0, o0, data, done, d, o, begin, ptr, f);
        assert dest == d + Trailer(o) + Physical(f);
        done := done + [f];
        ptr, left, begin := ptr + fragmentLength, left - fragmentLength, false;
        if !(left > 0) {
          break;
        }
      }
      AllEmitted(d0, o0, data, done, dest, blockOffset);
    }

    /** Fills the rest of a block that cannot hold a header. */
    method SwitchBlock()
      requires blockOffset <= BLOCK
      modifies this`dest, this`blockOffset
      ensures dest == old(dest) + Trailer(old(blockOffset)) && blockOffset == Start(old(blockOffset))
    {
      var leftover := BLOCK - blockOffset;
      if leftover < HEADER {
        if leftover > 0 {
          dest := dest + Zeros(leftover);
        }
        blockOffset := 0;
      }
    }

    /** Header and payload of one fragment. */
    method EmitPhysicalRecord(t: byte, payload: Bytes)
      requires blockOffset + HEADER + |payload| <= BLOCK
      modifies this`dest, this`blockOffset
      ensures dest == old(dest) + Physical(Fragment(t, payload))
      ensures blockOffset == old(blockOffset) + HEADER + |payload|
    {
      hide Extend, Checksum, Mask, Fixed32;
      var length := |payload|;
      var crc := Extend(Checksum([t]), payload);
      var buf := Fixed32(Mask(crc)) + [(length % 256) as byte, (length / 256) as byte, t];
      dest := dest + buf;
      dest := dest + payload;
      blockOffset := blockOffset + HEADER + length;
    }
  }

  lemma NoFragments(o: nat)
    requires o <= BLOCK
    ensures AllFit(o, []) && Layout(o, []) == [] && AfterAll(o, []) == o
  {
  }

  lemma ChunkIs(o: nat, f: Fragment)
    requires o <= BLOCK && Fits(o, f)
    ensures Chunk(o, f) == Trailer(o) + Physical(f)
  {
  }

  /** The fragment that the loop emits at `ptr` is the next one of the record. */
  lemma NextFragment(o: nat, begin: bool, data: Bytes, ptr: nat, f: Fragment)
    requires o <= BLOCK && ptr <= |data|
    requires var n := Cut(o, data[ptr..]);
             f == Fragment(KindOf(begin, ptr + n == |data|), data[ptr..ptr + n])
    ensures ptr + |f.data| == |data| ==> Fragments(o, begin, data[ptr..]) == [f]
    ensures ptr + |f.data| < |data| ==>
              After(o, f) == BLOCK &&
              Fragments(o, begin, data[ptr..]) == [f] + Fragments(BLOCK, false, data[ptr + |f.data|..])
  {
    var rest := data[ptr..];
    var n := Cut(o, rest);
    assert rest[..n] == f.data;
    assert rest[n..] == data[ptr + n..];
  }

  /** The state of the loop of `AddRecord`: what is written, and that the rest of the record is to follow. */
  ghost predicate Emitted(d0: Bytes, o0: nat, data: Bytes, done: seq<Fragment>, dest: Bytes, o: nat, begin: bool,
                          ptr: nat)
  {
    && o0 <= BLOCK && o <= BLOCK && ptr <= |data|
    && AllFit(o0, done) && o == AfterAll(o0, done)
    && dest == d0 + Layout(o0, done)
    && (if ptr == |data| && !begin then Fragments(o0, true, data) == done
        else Fragments(o0, true, data) == done + Fragments(o, begin, data[ptr..]))
  }

  lemma NothingEmitted(d0: Bytes, o0: nat, data: Bytes)
    requires o0 <= BLOCK
    ensures Emitted(d0, o0, data, [], d0, o0, true, 0)
  {
    hide Fragments;
    assert data[0..] == data;
    NoFragments(o0);
    assert d0 + Layout(o0, []) == d0;
    assert [] + Fragments(o0, true, data) == Fragments(o0, true, data);
  }

  lemma AllEmitted(d0: Bytes, o0: nat, data: Bytes, done: seq<Fragment>, dest: Bytes, o: nat)
    requires Emitted(d0, o0, data, done, dest, o, false, |data|)
    ensures AllFit(o0, Fragments(o0, true, data)) && o == AfterAll(o0, Fragments(o0, true, data))
    ensures dest == d0 + Layout(o0, Fragments(o0, true, data))
  {
    hide Fragments, AllFit, Layout, AfterAll;
  }

  lemma Regroup<T>(a: seq<T>, b: seq<T>, c: seq<T>, d: seq<T>)
    ensures a + (b + c) == a + b + c && a + b + c + d == a + (b + (c + d))
  {
  }

  lemma EmitOne(d0: Bytes, o0: nat, data: Bytes, done: seq<Fragment>, dest: Bytes, o: nat, begin: bool, ptr: nat,
                f: Fragment)
    requires Emitted(d0, o0, data, done, dest, o, begin, ptr) && (begin || ptr < |data|)
    requires var n := Cut(o, data[ptr..]);
             f == Fragment(KindOf(begin, ptr + n == |data|), data[ptr..ptr + n])
    ensures Emitted(d0, o0, data, done + [f], dest + Trailer(o) + Physical(f), After(o, f), false, ptr + |f.data|)
  {
    hide Fragments, AllFit, Layout, AfterAll, Chunk, Trailer, Physical;
    NextFragment(o, begin, data, ptr, f);
    OneMore(o0, done, f);
    ChunkIs(o, f);
    Regroup(d0, Layout(o0, done), Trailer(o), Physical(f));
    if ptr + |f.data| < |data| {
      Regroup(done, [f], Fragments(BLOCK, false, data[ptr + |f.data|..]), []);
    }
  }

  lemma OneMore(o: nat, fs: seq<Fragment>, f: Fragment)
    requires o <= BLOCK && AllFit(o, fs) && AfterAll(o, fs) <= BLOCK && Fits(AfterAll(o, fs), f)
    ensures AllFit(o, fs + [f]) && AfterAll(o, fs + [f]) == After(AfterAll(o, fs), f)
    ensures Layout(o, fs + [f]) == Layout(o, fs) + Chunk(AfterAll(o, fs), f)
  {
    hide Chunk, AllFit, Layout, AfterAll;
    var p := AfterAll(o, fs);
    NoFragments(After(p, f));
    assert [f] + [] == [f];
    FirstFragment(p, f, []);
    FitAppend(o, fs, [f]);
  }
}
