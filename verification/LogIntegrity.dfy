/** Whatever is in a log file, every record that is read from it consists of fragments that stand in it byte for byte,
    in order, with the right checksums (db/log_reader.cc). */
module LogIntegrity {
  import opened InternalKeys
  import opened Crc32c
  import opened Masking
  import opened LogFormat
  import opened LogReading

  // ---------- a header is what the writer would write ----------

  /** A payload with the right length and checksum in front of it is a fragment as the writer emits it. */
  lemma PhysicalThere(b: Bytes)
    requires |b| >= HEADER && HEADER + Length(b) <= |b| <= BLOCK && ChecksumOk(b, Length(b))
    ensures b[..HEADER + Length(b)] == Physical(Fragment(b[6], b[HEADER..HEADER + Length(b)]))
  {
    hide Extend, Checksum, Mask, Unmask, Fixed32, DecodeFixed32;
    var n := Length(b);
    var f := Fragment(b[6], b[HEADER..HEADER + n]);
    var crc := Checksum(b[6..HEADER + n]);
    assert b[6..HEADER + n] == [f.kind] + f.data;
    ChecksumMore([f.kind], f.data);
    FixedBack(b);
    MaskUnmask(DecodeFixed32(b));
    assert Fixed32(Mask(crc)) == b[..4];
    assert n % 256 == b[4] as nat && n / 256 == b[5] as nat;
    assert b[..HEADER + n] == b[..4] + [b[4], b[5], b[6]] + f.data;
  }

  // ---------- fragments in a file ----------

  function UnreadBytes(c: Cursor): Bytes {
    c.buffer + c.rest
  }

  /** The fragments stand in `u` one behind the other, with anything between them, and in front of its last `left`
      bytes. */
  ghost predicate Stand(u: Bytes, fs: seq<Fragment>, left: nat)
    decreases |fs|
  {
    if fs == [] then left <= |u|
    else
      |fs[0].data| < BLOCK
      && exists i: nat :: StandsAt(u, i, fs[0]) && Stand(u[i + |Physical(fs[0])|..], fs[1..], left)
  }

  predicate StandsAt(u: Bytes, i: nat, f: Fragment)
    requires |f.data| < BLOCK
  {
    i + |Physical(f)| <= |u| && u[i..i + |Physical(f)|] == Physical(f)
  }

  lemma {:induction false} StandLater(u: Bytes, k: nat, fs: seq<Fragment>, left: nat)
    requires k <= |u| && Stand(u[k..], fs, left)
    ensures Stand(u, fs, left)
  {
    hide Physical;
    if fs != [] {
      var f := fs[0];
      var i: nat :| StandsAt(u[k..], i, f) && Stand(u[k..][i + |Physical(f)|..], fs[1..], left);
      assert u[k..][i..i + |Physical(f)|] == u[k + i..k + i + |Physical(f)|];
      assert u[k..][i + |Physical(f)|..] == u[k + i + |Physical(f)|..];
      assert StandsAt(u, k + i, f);
    }
  }

  lemma {:induction false} StandFirst(u: Bytes, i: nat, f: Fragment, fs: seq<Fragment>, left: nat)
    requires |f.data| < BLOCK && StandsAt(u, i, f) && Stand(u[i + |Physical(f)|..], fs, left)
    ensures Stand(u, [f] + fs, left)
  {
    hide Physical;
    assert ([f] + fs)[1..] == fs;
  }

  /** Where the first of them stands. */
  lemma StandHead(u: Bytes, fs: seq<Fragment>, left: nat) returns (i: nat)
    requires fs != [] && Stand(u, fs, left)
    ensures |fs[0].data| < BLOCK && StandsAt(u, i, fs[0])
    ensures Stand(u[i + |Physical(fs[0])|..], fs[1..], left)
  {
    hide Physical;
    i :| StandsAt(u, i, fs[0]) && Stand(u[i + |Physical(fs[0])|..], fs[1..], left);
  }

  lemma {:induction false} StandMore(u: Bytes, fs: seq<Fragment>, left: nat, more: seq<Fragment>, left': nat)
    requires Stand(u, fs, left) && left <= |u| && Stand(u[|u| - left..], more, left')
    ensures Stand(u, fs + more, left')
    decreases |fs|
  {
    hide Physical, Stand;
    if fs == [] {
      assert fs + more == more;
      StandLater(u, |u| - left, more, left');
    } else {
      var f := fs[0];
      var i := StandHead(u, fs, left);
      var v := u[i + |Physical(f)|..];
      StandFits(v, fs[1..], left);
      assert v[|v| - left..] == u[|u| - left..];
      StandMore(v, fs[1..], left, more, left');
      StandFirst(u, i, f, fs[1..] + more, left');
      assert [f] + (fs[1..] + more) == fs + more;
    }
  }

  lemma {:induction false} StandFits(u: Bytes, fs: seq<Fragment>, left: nat)
    requires Stand(u, fs, left)
    ensures left <= |u|
    decreases |fs|
  {
    hide Physical;
    if fs != [] {
      var i: nat :| StandsAt(u, i, fs[0]) && Stand(u[i + |Physical(fs[0])|..], fs[1..], left);
      StandFits(u[i + |Physical(fs[0])|..], fs[1..], left);
    }
  }

  // ---------- what is read ----------

  predicate IsSuffix(a: Bytes, u: Bytes) {
    |a| <= |u| && u[|u| - |a|..] == a
  }

  /** What one physical read leaves is the end of what there was, and what it hands out stands right before that. */
  ghost predicate PieceFrom(c: Cursor, p: Piece, d: Cursor) {
    && |d.buffer| <= BLOCK && IsSuffix(UnreadBytes(d), UnreadBytes(c))
    && (FULL as nat <= p.code <= LAST as nat ==>
          var f := Fragment(p.code as byte, p.data);
          && |f.data| < BLOCK && |Physical(f)| + |UnreadBytes(d)| <= |UnreadBytes(c)|
          && StandsAt(UnreadBytes(c), |UnreadBytes(c)| - |UnreadBytes(d)| - |Physical(f)|, f))
  }

  lemma ParseThere(c: Cursor)
    requires HEADER <= |c.buffer| <= BLOCK
    ensures PieceFrom(c, Parse(c).0, Parse(c).1)
  {
    hide Physical, ChecksumOk, StandsAt, Length;
    var (p, d) := Parse(c);
    var u, b, n := UnreadBytes(c), c.buffer, HEADER + Length(c.buffer);
    if n <= |b| && ChecksumOk(b, Length(b)) && !(b[6] == ZERO_TYPE && n == HEADER) {
      ParsedThere(c, n);
    } else {
      assert u[|u| - |c.rest|..] == c.rest;
      assert UnreadBytes(d) == c.rest;
    }
  }

  lemma ParsedThere(c: Cursor, n: nat)
    requires HEADER <= n <= |c.buffer| <= BLOCK && n == HEADER + Length(c.buffer)
    requires ChecksumOk(c.buffer, Length(c.buffer))
    ensures var u, f := UnreadBytes(c), Fragment(c.buffer[6], c.buffer[HEADER..n]);
            && |f.data| < BLOCK && |Physical(f)| == n && StandsAt(u, 0, f)
            && u[n..] == UnreadBytes(c.(buffer := c.buffer[n..]))
  {
    hide Physical, ChecksumOk, Length;
    PhysicalThere(c.buffer);
    assert UnreadBytes(c)[0..n] == c.buffer[..n];
  }

  lemma {:induction false} PieceThere(c: Cursor)
    requires |c.buffer| <= BLOCK
    ensures PieceFrom(c, NextPiece(c).0, NextPiece(c).1)
    decreases if c.eof then 0 else 1, |c.rest|
  {
    hide Physical, Parse;
    var u := UnreadBytes(c);
    if |c.buffer| >= HEADER {
      ParseThere(c);
    } else {
      assert u[|u| - |c.rest|..] == c.rest;
      if !c.eof {
        var e := Refill(c);
        assert UnreadBytes(e) == c.rest;
        PieceThere(e);
        PieceEarlier(c, e, NextPiece(e).0, NextPiece(e).1);
      } else {
        assert UnreadBytes(c.(buffer := [])) == c.rest;
      }
    }
  }

  lemma PieceEarlier(c: Cursor, e: Cursor, p: Piece, d: Cursor)
    requires IsSuffix(UnreadBytes(e), UnreadBytes(c)) && PieceFrom(e, p, d)
    ensures PieceFrom(c, p, d)
  {
    hide Physical;
    var u, v, w := UnreadBytes(c), UnreadBytes(e), UnreadBytes(d);
    SuffixOfSuffix(u, v, |w|);
    if FULL as nat <= p.code <= LAST as nat {
      var n := |Physical(Fragment(p.code as byte, p.data))|;
      SuffixOfSuffix(u, v, |w| + n);
      assert u[|u| - |w| - n..|u| - |w|] == u[|u| - |w| - n..][..n];
      assert v[|v| - |w| - n..|v| - |w|] == v[|v| - |w| - n..][..n];
    }
  }

  lemma SuffixOfSuffix(u: Bytes, v: Bytes, n: nat)
    requires IsSuffix(v, u) && n <= |v|
    ensures u[|u| - n..] == v[|v| - n..]
  {
    assert u[|u| - |v|..][|v| - n..] == u[|u| - n..];
  }

  // ---------- records ----------

  /** What is held of a record. */
  function Pending(inRecord: bool, scratch: Bytes): Option<Bytes> {
    if inRecord then Some(scratch) else None
  }

  predicate Begins(f: Fragment) {
    f.kind == FULL || f.kind == FIRST
  }

  /** What reading a record hands out, from `c` on, comes from these fragments. */
  ghost predicate RecordFrom(c: Cursor, pending: Option<Bytes>, r: Option<Bytes>, d: Cursor, fs: seq<Fragment>) {
    && |d.buffer| <= BLOCK && IsSuffix(UnreadBytes(d), UnreadBytes(c))
    && (r.Some? ==>
          && Stand(UnreadBytes(c), fs, |UnreadBytes(d)|) && RecordsOf(fs, pending) == [r.value]
          && fs != [] && (pending.None? ==> Begins(fs[0])))
  }

  /** The piece is no part of the record. */
  lemma PieceDropped(c: Cursor, p: Piece, e: Cursor, pending: Option<Bytes>, r: Option<Bytes>, d: Cursor,
                     fs: seq<Fragment>)
    requires PieceFrom(c, p, e) && RecordFrom(e, None, r, d, fs)
    ensures RecordFrom(c, pending, r, d, fs)
  {
    hide Stand, PieceFrom;
    assert IsSuffix(UnreadBytes(e), UnreadBytes(c)) by { PieceSuffix(c, p, e); }
    SuffixOfSuffix(UnreadBytes(c), UnreadBytes(e), |UnreadBytes(d)|);
    if r.Some? {
      StandLater(UnreadBytes(c), |UnreadBytes(c)| - |UnreadBytes(e)|, fs, |UnreadBytes(d)|);
    }
  }

  lemma PieceSuffix(c: Cursor, p: Piece, e: Cursor)
    requires PieceFrom(c, p, e)
    ensures IsSuffix(UnreadBytes(e), UnreadBytes(c))
  {
    hide Physical;
  }

  /** The piece is a fragment of the record, but does not end it. */
  lemma PieceHeld(c: Cursor, p: Piece, e: Cursor, pending: Option<Bytes>, r: Option<Bytes>, d: Cursor,
                  fs: seq<Fragment>)
    returns (all: seq<Fragment>)
    requires PieceFrom(c, p, e) && (p.code == FIRST as nat || (p.code == MIDDLE as nat && pending.Some?))
    requires RecordFrom(e, Hold(Fragment(p.code as byte, p.data), pending), r, d, fs)
    ensures RecordFrom(c, pending, r, d, all)
  {
    hide Stand, Physical;
    var f := Fragment(p.code as byte, p.data);
    all := [f] + fs;
    assert all[1..] == fs;
    SuffixOfSuffix(UnreadBytes(c), UnreadBytes(e), |UnreadBytes(d)|);
    if r.Some? {
      StandFirst(UnreadBytes(c), |UnreadBytes(c)| - |UnreadBytes(e)| - |Physical(f)|, f, fs, |UnreadBytes(d)|);
    }
  }

  /** The piece ends the record. */
  lemma PieceEnds(c: Cursor, p: Piece, d: Cursor, pending: Option<Bytes>, record: Bytes)
    requires PieceFrom(c, p, d)
    requires || (p.code == FULL as nat && record == p.data)
             || (p.code == LAST as nat && pending.Some? && record == pending.value + p.data)
    ensures RecordFrom(c, pending, Some(record), d, [Fragment(p.code as byte, p.data)])
  {
    hide Physical;
    var f := Fragment(p.code as byte, p.data);
    assert [f][1..] == [] && [f] + [] == [f];
    assert Stand(UnreadBytes(d), [], |UnreadBytes(d)|);
    RecordsOfNone(None);
    assert [record] + [] == [record];
    assert RecordsOf([f], pending) == [record];
    StandFirst(UnreadBytes(c), |UnreadBytes(c)| - |UnreadBytes(d)| - |Physical(f)|, f, [], |UnreadBytes(d)|);
  }

  lemma {:induction false} RecordThere(c: Cursor, inRecord: bool, scratch: Bytes) returns (fs: seq<Fragment>)
    requires |c.buffer| <= BLOCK
    ensures var (r, d) := NextRecord(c, inRecord, scratch);
            RecordFrom(c, Pending(inRecord, scratch), r, d, fs)
    decreases Unread(c)
  {
    hide NextPiece, PieceFrom, RecordFrom, RecordsOf;
    PieceThere(c);
    var (p, e) := NextPiece(c);
    var reported := e.(reports := e.reports + 1);
    var pending := Pending(inRecord, scratch);
    assert |e.buffer| <= BLOCK && PieceFrom(c, p, reported) by { PieceReported(c, p, e, reported); }
    fs := [];
    if p.code == FULL as nat {
      fs := [Fragment(FULL, p.data)];
      PieceEnds(c, p, e, pending, p.data);
      PieceEnds(c, p, reported, pending, p.data);
    } else if p.code == EOF {
      NoRecord(c, p, e, pending);
    } else if p.code == FIRST as nat {
      var d := if inRecord && scratch != [] then reported else e;
      var more := RecordThere(d, true, p.data);
      var (r, after) := NextRecord(d, true, p.data);
      fs := PieceHeld(c, p, d, pending, r, after, more);
    } else if p.code == MIDDLE as nat && inRecord {
      var more := RecordThere(e, true, scratch + p.data);
      var (r, after) := NextRecord(e, true, scratch + p.data);
      fs := PieceHeld(c, p, e, pending, r, after, more);
    } else if p.code == LAST as nat && inRecord {
      fs := [Fragment(LAST, p.data)];
      PieceEnds(c, p, e, pending, scratch + p.data);
    } else {
      var d := if p.code == BAD && !inRecord then e else reported;
      var kept := if p.code == MIDDLE as nat || p.code == LAST as nat || (p.code == BAD && !inRecord) then scratch
                  else [];
      fs := RecordThere(d, false, kept);
      var (r, after) := NextRecord(d, false, kept);
      PieceDropped(c, p, d, pending, r, after, fs);
    }
  }

  lemma PieceReported(c: Cursor, p: Piece, e: Cursor, reported: Cursor)
    requires PieceFrom(c, p, e) && reported == e.(reports := e.reports + 1)
    ensures |e.buffer| <= BLOCK && PieceFrom(c, p, reported)
  {
    hide Physical;
    assert UnreadBytes(reported) == UnreadBytes(e);
  }

  lemma NoRecord(c: Cursor, p: Piece, e: Cursor, pending: Option<Bytes>)
    requires PieceFrom(c, p, e)
    ensures RecordFrom(c, pending, None, e, [])
  {
    hide Physical;
  }

  lemma BeginsAnew(fs: seq<Fragment>, pending: Option<Bytes>)
    requires fs != [] && Begins(fs[0])
    ensures RecordsOf(fs, pending) == RecordsOf(fs, None)
  {
  }

  lemma {:induction false} RecordsThere(c: Cursor) returns (fs: seq<Fragment>)
    requires |c.buffer| <= BLOCK
    ensures Stand(UnreadBytes(c), fs, 0) && RecordsOf(fs, None) == AllRecords(c).0
    ensures fs != [] ==> Begins(fs[0])
    decreases Unread(c)
  {
    hide NextRecord, RecordsOf, Stand;
    var first := RecordThere(c, false, []);
    var (r, d) := NextRecord(c, false, []);
    fs := [];
    if r.None? {
      NothingStands(UnreadBytes(c));
    } else {
      var more := RecordsThere(d);
      fs := first + more;
      StandMore(UnreadBytes(c), first, |UnreadBytes(d)|, more, 0);
      RecordsOfAppend(first, more, None);
      if more != [] {
        BeginsAnew(more, PendingAfter(first, None));
      } else {
        RecordsOfNone(PendingAfter(first, None));
        RecordsOfNone(None);
      }
    }
  }

  lemma NothingStands(u: Bytes)
    ensures Stand(u, [], 0) && RecordsOf([], None) == []
  {
  }

  /** No record is made up: for any file at all, the records read from it are those of fragments that stand in it, each
      with its header as the writer computes it, one behind the other. */
  lemma NothingMadeUp(file: Bytes) returns (fs: seq<Fragment>)
    ensures Stand(file, fs, 0) && RecordsOf(fs, None) == AllRecords(Cursor([], file, false, 0)).0
  {
    hide Stand, RecordsOf, AllRecords;
    var c := Cursor([], file, false, 0);
    fs := RecordsThere(c);
    assert UnreadBytes(c) == file;
  }
}
