/** Reading a log back (db/log_reader.cc), with checksums on and the initial offset 0. */
module LogReading {
  import opened InternalKeys
  import opened Crc32c
  import opened Masking
  import opened LogFormat

  /** Codes beside the record types: the end of the file, and a fragment to skip. */
  const EOF: nat := 5
  const BAD: nat := 6

  /** What the reader holds: the unread part of its buffer, the unread part of the file, whether the last read
      came back short, and how many corruptions it reported. */
  datatype Cursor = Cursor(buffer: Bytes, rest: Bytes, eof: bool, reports: nat)

  datatype Piece = Piece(code: nat, data: Bytes)

  function Unread(c: Cursor): nat {
    |c.buffer| + |c.rest|
  }

  /** The next block of the file. */
  function Refill(c: Cursor): Cursor {
    if |c.rest| < BLOCK then c.(buffer := c.rest, rest := [], eof := true)
    else c.(buffer := c.rest[..BLOCK], rest := c.rest[BLOCK..])
  }

  function Length(header: Bytes): nat
    requires |header| >= HEADER
  {
    header[4] as nat + 256 * header[5] as nat
  }

  /** The checksum stored in the header is that of the type and the payload. */
  predicate ChecksumOk(buffer: Bytes, length: nat)
    requires HEADER + length <= |buffer|
  {
    Unmask(DecodeFixed32(buffer)) == Checksum(buffer[6..HEADER + length])
  }

  /** The buffer holds a header: what becomes of it. */
  function Parse(c: Cursor): (r: (Piece, Cursor))
    requires |c.buffer| >= HEADER
    ensures Unread(r.1) < Unread(c)
  {
    var b := c.buffer;
    var length := Length(b);
    if HEADER + length > |b| then
      if c.eof then (Piece(EOF, []), c.(buffer := []))
      else (Piece(BAD, []), c.(buffer := [], reports := c.reports + 1))
    else if b[6] == ZERO_TYPE && length == 0 then (Piece(BAD, []), c.(buffer := []))
    else if !ChecksumOk(b, length) then (Piece(BAD, []), c.(buffer := [], reports := c.reports + 1))
    else (Piece(b[6] as nat, b[HEADER..HEADER + length]), c.(buffer := b[HEADER + length..]))
  }

  /** The next fragment. */
  function NextPiece(c: Cursor): (r: (Piece, Cursor))
    ensures Unread(r.1) <= Unread(c)
    ensures r.0.code == EOF || Unread(r.1) < Unread(c)
    decreases if c.eof then 0 else 1, |c.rest|
  {
    if |c.buffer| >= HEADER then Parse(c)
    else if c.eof then (Piece(EOF, []), c.(buffer := []))
    else NextPiece(Refill(c))
  }

  /** The next record, `scratch` holding the fragments of it read so far. */
  function NextRecord(c: Cursor, inRecord: bool, scratch: Bytes): (r: (Option<Bytes>, Cursor))
    ensures Unread(r.1) <= Unread(c)
    ensures r.0.Some? ==> Unread(r.1) < Unread(c)
    decreases Unread(c)
  {
    var (p, d) := NextPiece(c);
    var reported := d.(reports := d.reports + 1);
    if p.code == FULL as nat then
      (Some(p.data), if inRecord && scratch != [] then reported else d)
    else if p.code == EOF then (None, d)
    else if p.code == FIRST as nat then
      NextRecord(if inRecord && scratch != [] then reported else d, true, p.data)
    else if p.code == MIDDLE as nat then
      if inRecord then NextRecord(d, true, scratch + p.data) else NextRecord(reported, false, scratch)
    else if p.code == LAST as nat then
      if inRecord then (Some(scratch + p.data), d) else NextRecord(reported, false, scratch)
    else if p.code == BAD then
      NextRecord(if inRecord then reported else d, false, if inRecord then [] else scratch)
    else NextRecord(reported, false, [])
  }

  /** All records up to the first failed read, as recovery reads them. */
  function AllRecords(c: Cursor): (seq<Bytes>, Cursor)
    decreases Unread(c)
  {
    var (r, d) := NextRecord(c, false, []);
    if r.None? then ([], d)
    else
      var (rs, e) := AllRecords(d);
      ([r.value] + rs, e)
  }

  /** `Reader`. */
  class Reader {
    var buffer: Bytes
    var rest: Bytes
    var eof: bool
    var reports: nat

    ghost function State(): Cursor
      reads this
    {
      Cursor(buffer, rest, eof, reports)
    }

    constructor (file: Bytes)
      ensures State() == Cursor([], file, false, 0)
    {
      buffer, rest, eof, reports := [], file, false, 0;
    }

    method ReadPhysicalRecord() returns (type_: nat, result: Bytes)
      modifies this
      ensures (Piece(type_, result), State()) == NextPiece(old(State()))
    {
      hide ChecksumOk;
      ghost var c0 := State();
      while true
        invariant NextPiece(State()) == NextPiece(c0)
        decreases if eof then 0 else 1, |rest|
      {
        if |buffer| < HEADER {
          if !eof {
            ghost var c := State();
            var n := if |rest| < BLOCK then |rest| else BLOCK;
            buffer, rest := rest[..n], rest[n..];
            if |buffer| < BLOCK {
              eof := true;
            }
            assert State() == Refill(c);
            continue;
          } else {
            buffer := [];
            return EOF, [];
          }
        }
        var header := buffer;
        var length := header[4] as nat + 256 * header[5] as nat;
        if HEADER + length > |buffer| {
          buffer := [];
          if !eof {
            reports := reports + 1;
            return BAD, [];
          }
          return EOF, [];
        }
        if header[6] == ZERO_TYPE && length == 0 {
          buffer := [];
          return BAD, [];
        }
        if !ChecksumOk(header, length) {
          buffer := [];
          reports := reports + 1;
          return BAD, [];
        }
        buffer := buffer[HEADER + length..];
        return header[6] as nat, header[HEADER..HEADER + length];
      }
    }

    method ReadRecord() returns (record: Option<Bytes>)
      modifies this
      ensures (record, State()) == NextRecord(old(State()), false, [])
    {
      hide NextPiece;
      var scratch: Bytes := [];
      var inFragmentedRecord := false;
      ghost var c0 := State();
      while true
        invariant NextRecord(State(), inFragmentedRecord, scratch) == NextRecord(c0, false, [])
        decreases Unread(State())
      {
        var type_, fragment := ReadPhysicalRecord();
        if type_ == FULL as nat {
          if inFragmentedRecord && scratch != [] {
            reports := reports + 1;
          }
          return Some(fragment);
        } else if type_ == FIRST as nat {
          if inFragmentedRecord && scratch != [] {
            reports := reports + 1;
          }
          scratch := fragment;
          inFragmentedRecord := true;
        } else if type_ == MIDDLE as nat {
          if !inFragmentedRecord {
            reports := reports + 1;
          } else {
            scratch := scratch + fragment;
          }
        } else if type_ == LAST as nat {
          if !inFragmentedRecord {
            reports := reports + 1;
          } else {
            scratch := scratch + fragment;
            return Some(scratch);
          }
        } else if type_ == EOF {
          return None;
        } else if type_ == BAD {
          if inFragmentedRecord {
            reports := reports + 1;
            inFragmentedRecord := false;
            scratch := [];
          }
        } else {
          reports := reports + 1;
          inFragmentedRecord := false;
          scratch := [];
        }
      }
    }

    /** Reads until a read fails, as `RecoverLogFile` does. */
    method ReadAll() returns (records: seq<Bytes>)
      modifies this
      ensures (records, State()) == AllRecords(old(State()))
    {
      hide NextRecord;
      records := [];
      ghost var c0 := State();
      assert records + AllRecords(c0).0 == AllRecords(c0).0;
      while true
        invariant AllRecords(c0) == (records + AllRecords(State()).0, AllRecords(State()).1)
        decreases Unread(State())
      {
        ghost var tail := AllRecords(State()).0;
        var r := ReadRecord();
        if r.None? {
          assert records + [] == records;
          break;
        }
        assert tail == [r.value] + AllRecords(State()).0;
        assert records + tail == records + [r.value] + AllRecords(State()).0;
        records := records + [r.value];
      }
    }
  }

  // ---------- a prefix of a well-formed log ----------

  /** The unread bytes are the start of the layout of `fs` from offset `o`, with the buffer ending where a block
      ends unless the file did. */
  predicate Ahead(c: Cursor, o: nat, fs: seq<Fragment>) {
    && o <= BLOCK && AllFit(o, fs)
    && c.buffer + c.rest <= Layout(o, fs)
    && (if c.eof then c.rest == [] && |c.buffer| + o < BLOCK else |c.buffer| + o == BLOCK)
  }

  /** The checksum the reader computes over type and payload is the one the writer extends to the payload. */
  lemma ChecksumAgrees(f: Fragment, more: Bytes)
    requires |f.data| < BLOCK
    ensures Length(Physical(f) + more) == |f.data|
    ensures (Physical(f) + more)[6] == f.kind
    ensures (Physical(f) + more)[HEADER..HEADER + |f.data|] == f.data
    ensures (Physical(f) + more)[HEADER + |f.data|..] == more
    ensures ChecksumOk(Physical(f) + more, |f.data|)
  {
    hide Extend, Checksum, Mask, Unmask, Fixed32, DecodeFixed32;
    var b := Physical(f) + more;
    var crc := Extend(Checksum([f.kind]), f.data);
    StoredChecksum(crc, b[4..]);
    assert b == Fixed32(Mask(crc)) + b[4..];
    assert b[6..HEADER + |f.data|] == [f.kind] + f.data;
    ChecksumMore([f.kind], f.data);
  }

  lemma StoredChecksum(crc: Word32, more: Bytes)
    ensures Unmask(DecodeFixed32(Fixed32(Mask(crc)) + more)) == crc
  {
    hide Mask, Unmask;
    UnmaskMask(crc);
    FixedRoundTrip(Mask(crc));
  }

  predicate Typed(fs: seq<Fragment>) {
    forall f :: f in fs ==> FULL <= f.kind <= LAST
  }

  /** The first fragment is there in full. */
  predicate Whole(c: Cursor, o: nat, fs: seq<Fragment>)
    requires o <= BLOCK && AllFit(o, fs)
  {
    fs != [] && Unread(c) >= |Chunk(o, fs[0])|
  }

  /** The trailer of a block is skipped: the next block starts with the next fragment. */
  lemma RefillAhead(c: Cursor, o: nat, fs: seq<Fragment>)
    requires Ahead(c, o, fs) && |c.buffer| < HEADER && !c.eof
    ensures Ahead(Refill(c), 0, fs) && Unread(Refill(c)) == Unread(c) - |c.buffer|
    ensures fs != [] ==> |Chunk(o, fs[0])| == |c.buffer| + |Chunk(0, fs[0])| && After(o, fs[0]) == After(0, fs[0])
  {
    hide Physical, AllFit, Layout;
    if fs == [] {
      NoFragments(o);
      NoFragments(0);
      assert c.buffer == [] && c.rest == [];
    } else {
      TrailerFirst(o, fs);
      assert |Trailer(o)| == |c.buffer|;
      DropCommon(c.buffer, c.rest, Trailer(o), Layout(0, fs));
    }
    assert Refill(c).buffer + Refill(c).rest == c.rest;
  }

  /** From the trailer of a block on, a layout is the trailer and then the layout from the start of a block. */
  lemma TrailerFirst(o: nat, fs: seq<Fragment>)
    requires o <= BLOCK < o + HEADER && AllFit(o, fs) && fs != []
    ensures AllFit(0, fs) && Layout(o, fs) == Trailer(o) + Layout(0, fs)
    ensures |Chunk(o, fs[0])| == |Trailer(o)| + |Chunk(0, fs[0])| && After(o, fs[0]) == After(0, fs[0])
  {
    hide Physical, Layout, AllFit;
    var f, more := fs[0], fs[1..];
    assert fs == [f] + more;
    FirstFragment(o, f, more);
    FirstFragment(0, f, more);
    var tail := Layout(After(o, f), more);
    assert Chunk(0, f) == Physical(f);
    assert Trailer(o) + Physical(f) + tail == Trailer(o) + (Physical(f) + tail);
  }

  lemma DropCommon(a: Bytes, b: Bytes, x: Bytes, y: Bytes)
    requires |a| == |x| && a + b <= x + y
    ensures a == x && b <= y
  {
    assert (a + b)[..|a|] == (x + y)[..|a|];
    assert (a + b)[|a|..] == (x + y)[|a|..|a| + |b|];
    assert (x + y)[|a|..|a| + |b|] == y[..|b|];
  }

  /** A buffer that holds all of a fragment gives that fragment. */
  lemma ParseWhole(c: Cursor, o: nat, fs: seq<Fragment>)
    requires Ahead(c, o, fs) && |c.buffer| >= HEADER && Whole(c, o, fs) && Typed(fs)
    ensures var (p, d) := Parse(c);
            && p == Piece(fs[0].kind as nat, fs[0].data) && d.reports == c.reports
            && Ahead(d, After(o, fs[0]), fs[1..]) && Unread(d) == Unread(c) - |Chunk(o, fs[0])|
  {
    hide ChecksumOk, Length, Physical, AllFit, Layout, Ahead;
    WholeInBuffer(c, o, fs);
    var f := fs[0];
    var n := HEADER + |f.data|;
    var more := c.buffer[n..];
    ChecksumAgrees(f, more);
    assert c.buffer[HEADER..n] == f.data;
  }

  /** The first fragment stands in front of the buffer, and what follows goes on with the layout. */
  lemma WholeInBuffer(c: Cursor, o: nat, fs: seq<Fragment>)
    requires Ahead(c, o, fs) && |c.buffer| >= HEADER && Whole(c, o, fs)
    ensures var f := fs[0];
            var n := HEADER + |f.data|;
            && |f.data| < BLOCK && n <= |c.buffer| && c.buffer == Physical(f) + c.buffer[n..]
            && |Chunk(o, f)| == n && Ahead(c.(buffer := c.buffer[n..]), After(o, f), fs[1..])
  {
    hide Physical, AllFit, Layout;
    var f := fs[0];
    assert fs == [f] + fs[1..];
    FirstFragment(o, f, fs[1..]);
    var n := HEADER + |f.data|;
    var tail := Layout(After(o, f), fs[1..]);
    assert Chunk(o, f) == Physical(f);
    var more := c.buffer[n..];
    assert c.buffer + c.rest == c.buffer[..n] + (more + c.rest);
    DropCommon(c.buffer[..n], more + c.rest, Physical(f), tail);
  }

  /** A header without all of its payload can only be at the end of the file. */
  lemma ParseCut(c: Cursor, o: nat, fs: seq<Fragment>)
    requires Ahead(c, o, fs) && |c.buffer| >= HEADER && !Whole(c, o, fs)
    ensures Parse(c).0.code == EOF && Parse(c).1.reports == c.reports
  {
    hide ChecksumOk, Length, Physical, AllFit;
    var bytes := c.buffer + c.rest;
    assert |bytes| <= |Layout(o, fs)|;
    assert fs != [];
    var f := fs[0];
    assert fs == [f] + fs[1..];
    FirstFragment(o, f, fs[1..]);
    var tail := Layout(After(o, f), fs[1..]);
    assert Trailer(o) == [];
    assert c.eof;
    assert bytes == c.buffer && Layout(o, fs) == Physical(f) + tail;
    LengthAhead(c.buffer, f, tail);
  }

  lemma LengthAhead(b: Bytes, f: Fragment, tail: Bytes)
    requires |f.data| < BLOCK && |b| >= HEADER && b <= Physical(f) + tail
    ensures Length(b) == |f.data|
  {
    hide ChecksumOk, Physical;
    ChecksumAgrees(f, tail);
    assert b[4] == (Physical(f) + tail)[4] && b[5] == (Physical(f) + tail)[5];
  }

  /** The next fragment is read exactly when all of it is there; else the reader says it is at the end.
      Nothing is reported either way. */
  lemma {:induction false} PieceAhead(c: Cursor, o: nat, fs: seq<Fragment>)
    requires Ahead(c, o, fs) && Typed(fs)
    ensures var (p, d) := NextPiece(c);
            && d.reports == c.reports
            && (if Whole(c, o, fs)
                then p == Piece(fs[0].kind as nat, fs[0].data) && Ahead(d, After(o, fs[0]), fs[1..])
                     && Unread(d) == Unread(c) - |Chunk(o, fs[0])|
                else p.code == EOF)
    decreases if c.eof then 0 else 1, |c.rest|
  {
    hide Parse, Chunk, AllFit, Layout;
    if |c.buffer| >= HEADER {
      if Whole(c, o, fs) {
        ParseWhole(c, o, fs);
      } else {
        ParseCut(c, o, fs);
      }
    } else if !c.eof {
      RefillAhead(c, o, fs);
      PieceAhead(Refill(c), 0, fs);
    }
  }

  /** The next record is read exactly when all its fragments are there; else no record is. */
  lemma {:induction false} RecordAhead(c: Cursor, o: nat, begin: bool, data: Bytes, more: seq<Fragment>, scratch: Bytes)
    requires o <= BLOCK && Typed(more)
    requires Ahead(c, o, Fragments(o, begin, data) + more)
    requires begin ==> scratch == []
    ensures var fs := Fragments(o, begin, data);
            var (r, d) := NextRecord(c, !begin, scratch);
            && AllFit(o, fs) && d.reports == c.reports
            && (if Unread(c) >= |Layout(o, fs)|
                then r == Some(scratch + data) && Ahead(d, AfterAll(o, fs), more)
                  && Unread(d) == Unread(c) - |Layout(o, fs)|
                else r == None)
    decreases |data|, if Start(o) + HEADER == BLOCK then 1 else 0
  {
    hide NextPiece, Ahead, AllFit, Layout, AfterAll, Chunk;
    var fs := Fragments(o, begin, data);
    FragmentsFit(o, begin, data);
    var n := Cut(o, data);
    var f := fs[0];
    assert f == Fragment(KindOf(begin, n == |data|), data[..n]);
    FragmentsTyped(o, begin, data);
    AheadFits(c, o, fs + more);
    PieceAhead(c, o, fs + more);
    assert (fs + more)[0] == f;
    if n == |data| {
      assert fs == [f] + [];
      FirstFragment(o, f, []);
      NoFragments(After(o, f));
      assert (fs + more)[1..] == more;
      assert data[..n] == data && (begin ==> scratch + data == data);
    } else {
      var fs1 := Fragments(BLOCK, false, data[n..]);
      assert fs == [f] + fs1;
      assert (fs + more)[1..] == fs1 + more;
      FirstFragment(o, f, fs1);
      var (p, d) := NextPiece(c);
      if p.code != EOF {
        var s := if begin then data[..n] else scratch + data[..n];
        RecordAhead(d, BLOCK, false, data[n..], more, s);
        assert s + data[n..] == scratch + data;
      }
    }
  }

  lemma AheadFits(c: Cursor, o: nat, fs: seq<Fragment>)
    requires Ahead(c, o, fs)
    ensures o <= BLOCK && AllFit(o, fs)
  {
  }

  lemma {:induction false} FragmentsTyped(o: nat, begin: bool, data: Bytes)
    requires o <= BLOCK
    ensures Typed(Fragments(o, begin, data))
    decreases |data|, if Start(o) + HEADER == BLOCK then 1 else 0
  {
    var n := Cut(o, data);
    if n != |data| {
      FragmentsTyped(BLOCK, false, data[n..]);
    }
  }

  lemma {:induction false} AllFragmentsTyped(o: nat, records: seq<Bytes>)
    requires o <= BLOCK
    ensures Typed(AllFragments(o, records))
    decreases |records|
  {
    hide Fragments;
    if records != [] {
      FragmentsTyped(o, true, records[0]);
      FragmentsFit(o, true, records[0]);
      AllFragmentsTyped(AfterAll(o, Fragments(o, true, records[0])), records[1..]);
    }
  }

  /** The length of the part of a log that holds `records`, written from offset `o`. */
  function Size(o: nat, records: seq<Bytes>): nat
    requires o <= BLOCK
  {
    AllFragmentsFit(o, records);
    |Layout(o, AllFragments(o, records))|
  }

  lemma SizeFirst(o: nat, records: seq<Bytes>)
    requires o <= BLOCK && records != []
    ensures var fs := Fragments(o, true, records[0]);
            AllFit(o, fs) && AfterAll(o, fs) <= BLOCK
            && AllFragments(o, records) == fs + AllFragments(AfterAll(o, fs), records[1..])
            && Size(o, records) == |Layout(o, fs)| + Size(AfterAll(o, fs), records[1..])
  {
    hide Fragments, Layout, AllFit, AfterAll;
    var fs := Fragments(o, true, records[0]);
    FragmentsFit(o, true, records[0]);
    AllFragmentsFit(AfterAll(o, fs), records[1..]);
    FitAppend(o, fs, AllFragments(AfterAll(o, fs), records[1..]));
  }

  /** Exactly the records that are there in full are read. */
  lemma {:induction false} RecordsAhead(c: Cursor, o: nat, records: seq<Bytes>)
    requires o <= BLOCK && Ahead(c, o, AllFragments(o, records))
    ensures var (rs, d) := AllRecords(c);
            && d.reports == c.reports && rs <= records
            && forall i :: 0 <= i <= |records| ==> (i <= |rs| <==> Size(o, records[..i]) <= Unread(c))
    decreases |records|
  {
    hide NextRecord, Ahead, Fragments, AllFit, AllFragments, Layout, AfterAll, Size;
    var (rs, d) := AllRecords(c);
    if records == [] {
      NothingAhead(c, o);
      assert records[..0] == [];
    } else {
      SizeFirst(o, records);
      var fs := Fragments(o, true, records[0]);
      var p := AfterAll(o, fs);
      AllFragmentsTyped(p, records[1..]);
      RecordAhead(c, o, true, records[0], AllFragments(p, records[1..]), []);
      var (r, e) := NextRecord(c, false, []);
      if r.Some? {
        assert [] + records[0] == records[0];
        RecordsAhead(e, p, records[1..]);
        var rs1 := AllRecords(e).0;
        assert rs == [records[0]] + rs1;
        assert records == [records[0]] + records[1..];
      }
      forall i | 0 <= i <= |records|
        ensures i <= |rs| <==> Size(o, records[..i]) <= Unread(c)
      {
        if i == 0 {
          assert records[..0] == [];
          SizeNone(o);
        } else {
          SizeFirst(o, records[..i]);
          assert records[..i][1..] == records[1..][..i - 1];
        }
      }
    }
  }

  lemma SizeNone(o: nat)
    requires o <= BLOCK
    ensures AllFragments(o, []) == [] && Size(o, []) == 0
  {
  }

  lemma NothingAhead(c: Cursor, o: nat)
    requires o <= BLOCK && Ahead(c, o, AllFragments(o, []))
    ensures AllRecords(c).0 == [] && AllRecords(c).1.reports == c.reports && Size(o, []) == 0
  {
    hide NextPiece;
    SizeNone(o);
    PieceAhead(c, o, []);
  }

  /** A log cut off after any number of bytes: reading gives exactly the records wholly in front of the cut,
      and no corruption is reported. */
  lemma TruncatedLog(records: seq<Bytes>, k: nat)
    requires k <= |LogBytes(records)|
    ensures var (rs, d) := AllRecords(Cursor([], LogBytes(records)[..k], false, 0));
            && d.reports == 0 && rs <= records
            && forall i :: 0 <= i <= |records| ==> (i <= |rs| <==> |LogBytes(records[..i])| <= k)
  {
    hide AllRecords, AllFragments, AllFit, Layout;
    var c := Cursor([], LogBytes(records)[..k], false, 0);
    AllFragmentsFit(0, records);
    SameStart(records);
    assert c.buffer + c.rest == c.rest;
    RecordsAhead(c, BLOCK, records);
    forall i | 0 <= i <= |records|
      ensures Size(BLOCK, records[..i]) == |LogBytes(records[..i])|
    {
      SameStart(records[..i]);
    }
  }

  /** The reader starts as if a full block lay behind it. */
  lemma SameStart(records: seq<Bytes>)
    ensures AllFragments(BLOCK, records) == AllFragments(0, records)
    ensures AllFit(BLOCK, AllFragments(BLOCK, records))
    ensures Layout(BLOCK, AllFragments(BLOCK, records)) == LogBytes(records)
  {
    hide Fragments, Layout, AllFit;
    AllFragmentsFit(0, records);
    if records != [] {
      var fs := Fragments(0, true, records[0]);
      FragmentsFit(0, true, records[0]);
      SameFragments(0, BLOCK, true, records[0]);
      SameLayout(0, BLOCK, fs);
    }
    SameLayout(0, BLOCK, AllFragments(0, records));
  }

  /** The whole log gives all its records back. */
  lemma WholeLog(records: seq<Bytes>)
    ensures AllRecords(Cursor([], LogBytes(records), false, 0)).0 == records
    ensures AllRecords(Cursor([], LogBytes(records), false, 0)).1.reports == 0
  {
    hide AllRecords, LogBytes;
    var file := LogBytes(records);
    TruncatedLog(records, |file|);
    assert file[..|file|] == file && records[..|records|] == records;
  }
}
