/** The manifest: a log of encoded edits, and the version and counters recovered from its bytes, also when a crash cut
    it off and it was gone on with (db/version_set.cc `Recover`, `ReuseManifest`, `WriteSnapshot`, `LogAndApply`). */
module Manifests {
  import opened InternalKeys
  import opened Files
  import opened Versions
  import opened Edits
  import opened LogFormat
  import opened LogReading
  import opened LogReuse
  import opened QuietReuse
  import EditCoding

  type Fields = EditCoding.EditFields

  /** How the bytes of a key read, and what the table with a number holds. */
  datatype Reading = Reading(keyOf: Bytes -> InternalKey, contents: nat -> seq<Entry>)

  function FileOf(g: EditCoding.NewFile, reading: Reading): FileMeta {
    FileMeta(g.number, g.size, reading.keyOf(g.smallest), reading.keyOf(g.largest), reading.contents(g.number))
  }

  /** The edit that decoded fields stand for. */
  function EditOf(e: Fields, reading: Reading): VersionEdit {
    var added := seq(|e.added|, i requires 0 <= i < |e.added| => (e.added[i].level, FileOf(e.added[i], reading)));
    VersionEdit(e.deleted, added)
  }

  function EditsOf(es: seq<Fields>, reading: Reading): (vs: seq<VersionEdit>)
    ensures |vs| == |es| && forall i :: 0 <= i < |es| ==> vs[i] == EditOf(es[i], reading)
  {
    seq(|es|, i requires 0 <= i < |es| => EditOf(es[i], reading))
  }

  /** The records of a manifest: each edit encoded, its deleted files in some order. */
  function EditRecords(es: seq<Fields>, orders: seq<seq<(nat, nat)>>): (rs: seq<Bytes>)
    requires |orders| == |es|
    ensures |rs| == |es| && forall i :: 0 <= i < |es| ==>
              rs[i] == EditCoding.EncodeFields(EditCoding.FieldsOf(es[i], orders[i]))
  {
    seq(|es|, i requires 0 <= i < |es| => EditCoding.EncodeFields(EditCoding.FieldsOf(es[i], orders[i])))
  }

  /** The last value that an edit sets. */
  function LastSet(es: seq<Fields>, get: Fields -> Option<nat>): Option<nat> {
    if es == [] then None
    else
      var v := get(es[|es| - 1]);
      if v.Some? then v else LastSet(es[..|es| - 1], get)
  }

  const LOG_NUMBER := (e: Fields) => e.logNumber
  const PREV_LOG_NUMBER := (e: Fields) => e.prevLogNumber
  const NEXT_FILE := (e: Fields) => e.nextFile
  const LAST_SEQUENCE := (e: Fields) => e.lastSequence

  /** What opening a database takes from the manifest. */
  datatype Opened = Opened(version: Version, logNumber: nat, prevLogNumber: nat, nextFile: nat, lastSequence: nat)

  function Or(v: Option<nat>, otherwise: nat): nat {
    if v.Some? then v.value else otherwise
  }

  /** What the first edits of a manifest lead to; nothing if one of the three counters was never set. */
  ghost function OpenedAfter(es: seq<Fields>, v: Version): Option<Opened> {
    var log, next, last := LastSet(es, LOG_NUMBER), LastSet(es, NEXT_FILE), LastSet(es, LAST_SEQUENCE);
    if log.None? || next.None? || last.None? then None
    else Some(Opened(v, log.value, Or(LastSet(es, PREV_LOG_NUMBER), 0), next.value, last.value))
  }

  /** Edits that can be encoded, for one comparator, whose file numbers name one file of a level each. */
  ghost predicate ManifestFit(es: seq<Fields>, orders: seq<seq<(nat, nat)>>, comparator: Bytes, reading: Reading) {
    && |orders| == |es|
    && (forall i :: 0 <= i < |es| ==> EditCoding.EditOk(es[i], orders[i]))
    && (forall i :: 0 <= i < |es| ==> es[i].comparator.None? || es[i].comparator == Some(comparator))
    && NumbersName(EditsOf(es, reading))
  }

  lemma LevelsOf(e: Fields, order: seq<(nat, nat)>, reading: Reading)
    requires EditCoding.EditOk(e, order)
    ensures LevelsExist(EditOf(e, reading))
  {
    hide EditCoding.Scalars, EditCoding.Pointers;
    var fs := EditCoding.FieldsOf(e, order);
    var n := |EditCoding.Scalars(e) + EditCoding.Pointers(e.pointers)|;
    forall p | p in e.deleted ensures p.0 < NUM_LEVELS {
      assert p in (set d | d in order);
      var i :| 0 <= i < |order| && order[i] == p;
      assert fs[n + i] == EditCoding.DeletedFile(p.0, p.1);
      assert fs[n + i] in fs;
    }
    forall p | p in EditOf(e, reading).added ensures p.0 < NUM_LEVELS {
      var i :| 0 <= i < |e.added| && EditOf(e, reading).added[i] == p;
      assert fs[n + |order| + i] == EditCoding.AddedFile(e.added[i]);
      assert fs[n + |order| + i] in fs;
    }
  }

  /** `VersionSet::Recover`.  From a manifest that reads as the first `m` of these edits: a report makes it fail; else
      every edit is applied, in order, to one builder, and the version is the one the live database had after them. */
  method RecoverManifest(file: Bytes, comparator: Bytes, reading: Reading, ghost es: seq<Fields>,
                         ghost orders: seq<seq<(nat, nat)>>, ghost chain: seq<Version>, ghost m: nat)
    returns (r: Option<Opened>)
    requires ManifestFit(es, orders, comparator, reading) && Installs(chain, EditsOf(es, reading)) && m <= |es|
    requires AllRecords(Cursor([], file, false, 0)).0 == EditRecords(es, orders)[..m]
    ensures r == if AllRecords(Cursor([], file, false, 0)).1.reports > 0 then None else OpenedAfter(es[..m], chain[m])
  {
    hide AllRecords, NextRecord, EditCoding.EncodeFields, EditCoding.FieldsOf, EditCoding.Decode, EditCoding.EditOk;
    hide Installs, NumbersName, Built, Accumulated, LastSet;
    ghost var records, values := EditRecords(es, orders), EditsOf(es, reading);
    ghost var start := Cursor([], file, false, 0);
    var reader := new Reader(file);
    var builder := new Builder(NO_FILES);
    var log, prev, next, last: Option<nat> := None, None, None, None;
    ghost var i := 0;
    assert es[..0] == [];
    NothingSet();
    ReplayBegins(values, chain, builder.added, builder.deleted);
    while true
      invariant i <= m && AllRecords(reader.State()).0 == records[i..m]
      invariant AllRecords(reader.State()).1 == AllRecords(start).1 && reader.reports == 0
      invariant builder.Valid() && builder.base == NO_FILES
      invariant ReplayAt(values, chain, i, builder.added, builder.deleted)
      invariant log == LastSet(es[..i], LOG_NUMBER) && prev == LastSet(es[..i], PREV_LOG_NUMBER)
      invariant next == LastSet(es[..i], NEXT_FILE) && last == LastSet(es[..i], LAST_SEQUENCE)
      decreases Unread(reader.State())
    {
      ghost var before := reader.State();
      FirstRecord(before);
      var record := reader.ReadRecord();
      if reader.reports > 0 {
        return None;
      }
      if record.None? {
        break;
      }
      var edit := new EditCoding.VersionEdit();
      EditReads(es[i], orders[i]);
      var ok := edit.DecodeFrom(record.value);
      assert record.value == records[i] && ok && edit.e == es[i];
      if edit.e.comparator.Some? && edit.e.comparator.value != comparator {
        assert false;
      }
      ReplayReady(values, chain, i, builder.added, builder.deleted);
      LevelsOf(es[i], orders[i], reading);
      ghost var added, deleted := builder.added, builder.deleted;
      builder.Apply(EditOf(edit.e, reading));
      ReplayOn(values, chain, i, added, deleted, builder.added, builder.deleted);
      SetOneMore(es, i);
      log := if edit.e.logNumber.Some? then edit.e.logNumber else log;
      prev := if edit.e.prevLogNumber.Some? then edit.e.prevLogNumber else prev;
      next := if edit.e.nextFile.Some? then edit.e.nextFile else next;
      last := if edit.e.lastSequence.Some? then edit.e.lastSequence else last;
      i := i + 1;
    }
    if next.None? || log.None? || last.None? {
      return None;
    }
    var v := builder.SaveTo();
    ReplayEnds(values, chain, m, builder.added, builder.deleted, v);
    r := Some(Opened(v, log.value, if prev.Some? then prev.value else 0, next.value, last.value));
  }

  /** What is read in all is the next record and then the rest. */
  lemma FirstRecord(c: Cursor)
    ensures var (r, d) := NextRecord(c, false, []);
            && AllRecords(c) == (if r.None? then ([], d) else ([r.value] + AllRecords(d).0, AllRecords(d).1))
            && AllRecords(c).1.reports >= d.reports && (r.Some? ==> Unread(d) < Unread(c))
  {
    var (r, d) := NextRecord(c, false, []);
    if r.Some? {
      ReportsGrow(d);
    }
  }

  lemma {:induction false} ReportsGrow(c: Cursor)
    ensures AllRecords(c).1.reports >= c.reports
    decreases Unread(c)
  {
    hide NextRecord;
    NextReports(c, false, []);
    var (r, d) := NextRecord(c, false, []);
    if r.Some? {
      ReportsGrow(d);
    }
  }

  lemma {:induction false} NextReports(c: Cursor, inRecord: bool, scratch: Bytes)
    ensures NextRecord(c, inRecord, scratch).1.reports >= c.reports
    decreases Unread(c)
  {
    hide NextPiece;
    PieceReports(c);
    var (p, d) := NextPiece(c);
    var reported := d.(reports := d.reports + 1);
    if p.code == FIRST as nat {
      NextReports(if inRecord && scratch != [] then reported else d, true, p.data);
    } else if p.code == MIDDLE as nat {
      NextReports(if inRecord then d else reported, inRecord, if inRecord then scratch + p.data else scratch);
    } else if p.code == LAST as nat {
      if !inRecord {
        NextReports(reported, false, scratch);
      }
    } else if p.code == BAD {
      NextReports(if inRecord then reported else d, false, if inRecord then [] else scratch);
    } else if p.code != FULL as nat && p.code != EOF {
      NextReports(reported, false, []);
    }
  }

  lemma {:induction false} PieceReports(c: Cursor)
    ensures NextPiece(c).1.reports >= c.reports
    decreases if c.eof then 0 else 1, |c.rest|
  {
    hide ChecksumOk, Length;
    if |c.buffer| < HEADER && !c.eof {
      PieceReports(Refill(c));
    }
  }

  /** A fresh edit decodes an encoded one to itself. */
  lemma EditReads(e: Fields, order: seq<(nat, nat)>)
    requires EditCoding.EditOk(e, order)
    ensures Some(e) == EditCoding.Decode(EditCoding.Cleared(EditCoding.NO_FIELDS),
                                         EditCoding.EncodeFields(EditCoding.FieldsOf(e, order)))
  {
    EditCoding.EditRoundTripIff(e, order, EditCoding.NO_FIELDS);
  }

  lemma NothingSet()
    ensures forall get :: LastSet([], get) == None
  {
  }

  lemma SetOneMore(es: seq<Fields>, i: nat)
    requires i < |es|
    ensures forall get :: LastSet(es[..i + 1], get) == if get(es[i]).Some? then get(es[i]) else LastSet(es[..i], get)
  {
    assert es[..i + 1][..i] == es[..i];
  }

  // ---------- a manifest that a crash cut off ----------

  /** Of a manifest cut off after any number of bytes, exactly the edits wholly in front of the cut are read, and no
      corruption is reported. */
  lemma CutManifest(es: seq<Fields>, orders: seq<seq<(nat, nat)>>, k: nat) returns (m: nat)
    requires |orders| == |es| && k <= |LogBytes(EditRecords(es, orders))|
    ensures m <= |es| && forall i :: 0 <= i <= |es| ==> (i <= m <==> |LogBytes(EditRecords(es, orders)[..i])| <= k)
    ensures ReadsQuietly(LogBytes(EditRecords(es, orders))[..k], EditRecords(es, orders)[..m])
  {
    hide LogBytes, AllRecords;
    TruncatedLog(EditRecords(es, orders), k);
    m := |AllRecords(Cursor([], LogBytes(EditRecords(es, orders))[..k], false, 0)).0|;
  }

  /** A manifest that was cut off and gone on with: it opens with all its edits, those in front of the cut and those
      written behind it, if and only if none were written or it goes on quietly; else edits are missing, or a report
      makes the recovery fail. */
  lemma ReusedManifestIff(es: seq<Fields>, orders: seq<seq<(nat, nat)>>, k: nat, more: seq<Fields>,
                          moreOrders: seq<seq<(nat, nat)>>) returns (m: nat)
    requires |orders| == |es| && |moreOrders| == |more| && k <= |LogBytes(EditRecords(es, orders))|
    requires AllFit(0, AllFragments(0, EditRecords(es, orders)))
    requires more == [] || !Collides(AllFragments(0, EditRecords(es, orders)), k, EditRecords(more, moreOrders))
    ensures m <= |es| && forall i :: 0 <= i <= |es| ==> (i <= m <==> |LogBytes(EditRecords(es, orders)[..i])| <= k)
    ensures var fs := AllFragments(0, EditRecords(es, orders));
            var file := WrittenOn(fs, k, EditRecords(more, moreOrders));
            var (rs, d) := AllRecords(Cursor([], file, false, 0));
            && (rs == EditRecords(es[..m] + more, orders[..m] + moreOrders) && d.reports == 0
                <==> more == [] || GoesOnQuietly(fs, k))
            && (more != [] && !GoesOnQuietly(fs, k) ==> d.reports > 0 || |rs| < m + |more|)
  {
    hide LogBytes, AllRecords, AllFragments, Layout, AllFit, WrittenOn, GoesOnQuietly, Collides;
    hide EditCoding.EncodeFields, EditCoding.FieldsOf;
    var records, later := EditRecords(es, orders), EditRecords(more, moreOrders);
    m := CutManifest(es, orders, k);
    assert EditRecords(es[..m] + more, orders[..m] + moreOrders) == records[..m] + later;
    hide EditRecords;
    ReusedRecordsIff(records, k, later, m);
  }

  lemma ReusedRecordsIff(records: seq<Bytes>, k: nat, later: seq<Bytes>, m: nat)
    requires k <= |LogBytes(records)| && AllFit(0, AllFragments(0, records)) && m <= |records|
    requires ReadsQuietly(LogBytes(records)[..k], records[..m])
    requires later == [] || !Collides(AllFragments(0, records), k, later)
    ensures var fs := AllFragments(0, records);
            && k <= |Layout(0, fs)|
            && (ReadsQuietly(WrittenOn(fs, k, later), records[..m] + later) <==> later == [] || GoesOnQuietly(fs, k))
            && var (rs, d) := AllRecords(Cursor([], WrittenOn(fs, k, later), false, 0));
               later != [] && !GoesOnQuietly(fs, k) ==> d.reports > 0 || |rs| < m + |later|
  {
    hide LogBytes, AllRecords, AllFragments, Layout, AllFit, WrittenOn, Kept, GoesOnQuietly, Collides, ReportsOf, Front;
    var fs := AllFragments(0, records);
    AllFragmentsTyped(0, records);
    LogIs(records);
    CutReads(fs, k);
    FrontIsQuiet(records, k);
    QuietReuseIff(fs, k, later);
    if later != [] && !GoesOnQuietly(fs, k) {
      OtherwiseLost(fs, k, later);
    }
  }

  lemma LogIs(records: seq<Bytes>)
    ensures AllFit(0, AllFragments(0, records)) && LogBytes(records) == Layout(0, AllFragments(0, records))
  {
    AllFragmentsFit(0, records);
  }

  /** Nothing in front of a cut is reported. */
  lemma FrontIsQuiet(records: seq<Bytes>, k: nat)
    requires AllFit(0, AllFragments(0, records))
    ensures ReportsOf(Front(AllFragments(0, records), k), None) == 0
  {
    hide AllFragments, AllFit, ReportsOf;
    var fs := AllFragments(0, records);
    var m := WholeCount(0, fs, k);
    assert fs == fs[..m] + fs[m..];
    ReportsOfAll(0, records, None);
    ReportsOfAppend(fs[..m], fs[m..], None);
  }

  /** For example: a crash leaves the header of an edit's record and a few of its bytes, the manifest is gone on with,
      and a short edit is written.  The database then opens as if neither edit had ever been. */
  lemma EditBehindTearIsLost(es: seq<Fields>, orders: seq<seq<(nat, nat)>>, more: seq<Fields>,
                             moreOrders: seq<seq<(nat, nat)>>, j: nat)
    requires |es| == |orders| == 2 && |more| == |moreOrders| == 1 && HEADER <= j
    requires |EditRecords(es, orders)[0]| <= 1000 && |EditRecords(es, orders)[1]| <= 2000
    requires j + HEADER + |EditRecords(more, moreOrders)[0]| < HEADER + |EditRecords(es, orders)[1]|
    ensures var fs, k := AllFragments(0, EditRecords(es, orders)), |LogBytes(EditRecords(es, orders)[..1])| + j;
            && AllFit(0, fs) && k <= |Layout(0, fs)|
            && ReadsQuietly(WrittenOn(fs, k, EditRecords(more, moreOrders)), EditRecords(es[..1], orders[..1]))
  {
    hide EditCoding.EncodeFields, EditCoding.FieldsOf, ReadsQuietly, AllFragments, Layout, AllFit, LogBytes, WrittenOn;
    SecondRecordTorn(EditRecords(es, orders), EditRecords(more, moreOrders), j);
    assert EditRecords(es, orders)[..1] == EditRecords(es[..1], orders[..1]);
  }

  /** Or the crash comes at the edge of a block inside a long first edit: all that is written later is read, but the
      database does not open. */
  lemma EditInsideRecordFails(es: seq<Fields>, orders: seq<seq<(nat, nat)>>, more: seq<Fields>,
                              moreOrders: seq<seq<(nat, nat)>>)
    requires |es| == |orders| == 1 && |more| == |moreOrders| && more != []
    requires |EditRecords(es, orders)[0]| > BLOCK - HEADER
    ensures var fs := AllFragments(0, EditRecords(es, orders));
            && AllFit(0, fs) && BLOCK <= |Layout(0, fs)|
            && var (rs, d) := AllRecords(Cursor([], WrittenOn(fs, BLOCK, EditRecords(more, moreOrders)), false, 0));
               rs == EditRecords(more, moreOrders) && d.reports > 0
  {
    hide LogBytes, AllRecords, AllFragments, Layout, AllFit, WrittenOn;
    var records := EditRecords(es, orders);
    assert records == [records[0]];
    CutInsideRecord(records[0], EditRecords(more, moreOrders));
  }

  // ---------- the snapshot a new manifest starts with ----------

  /** `WriteSnapshot`: every file of the version from level `l` on. */
  function AllFiles(v: Version, l: nat): seq<(nat, FileMeta)>
    decreases |v| - l
  {
    if l >= |v| then [] else seq(|v[l]|, i requires 0 <= i < |v[l]| => (l, v[l][i])) + AllFiles(v, l + 1)
  }

  lemma AllFilesFrom(v: Version, l: nat)
    ensures AllFiles(v, l)
         == if l >= |v| then [] else seq(|v[l]|, i requires 0 <= i < |v[l]| => (l, v[l][i])) + AllFiles(v, l + 1)
  {
  }

  lemma {:induction false} AllFilesAre(v: Version, l: nat, m: nat, f: FileMeta)
    ensures (m, f) in AllFiles(v, l) <==> l <= m && InLevel(v, m, f)
    decreases |v| - l
  {
    hide AllFiles;
    AllFilesFrom(v, l);
    if l < |v| {
      AllFilesAre(v, l + 1, m, f);
      var here := seq(|v[l]|, i requires 0 <= i < |v[l]| => (l, v[l][i]));
      if m == l && f in v[l] {
        var i :| 0 <= i < |v[l]| && v[l][i] == f;
        assert here[i] == (m, f);
      }
      if (m, f) in here {
        var i :| 0 <= i < |here| && here[i] == (m, f);
      }
    }
  }

  /** Applied to no files, the snapshot of a version is that version, so a manifest may start with it. */
  lemma SnapshotIsVersion(v: Version)
    requires AllOrdered(v)
    ensures Applied(NO_FILES, VersionEdit({}, AllFiles(v, 0)), v)
    ensures Installs([NO_FILES, v], [VersionEdit({}, AllFiles(v, 0))])
  {
    var edit := VersionEdit({}, AllFiles(v, 0));
    forall l: nat | l < NUM_LEVELS ensures LevelApplied(NO_FILES[l], edit, l, v[l]) {
      forall f ensures f in v[l] <==> AddsAt(edit, l, f) {
        AllFilesAre(v, 0, l, f);
      }
    }
  }
}
