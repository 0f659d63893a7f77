/** Versions: the files of every level, the order between levels, and point reads (db/version_set.cc). */
module Versions {
  import opened InternalKeys
  import opened Meaning
  import opened Files

  const NUM_LEVELS: nat := 7

  type Version = seq<seq<FileMeta>>

  ghost predicate InLevel(v: Version, l: nat, f: FileMeta) {
    l < |v| && f in v[l]
  }

  /** A read looks into file `f` of level `l` before file `g` of level `m`. */
  ghost predicate SearchedBefore(l: nat, f: FileMeta, m: nat, g: FileMeta) {
    l < m || (l == m == 0 && f.number > g.number)
  }

  /** The ordering no single function states: whatever is searched earlier is newer, key by key. */
  ghost predicate LevelOrder(v: Version) {
    forall l, f, m, g :: InLevel(v, l, f) && InLevel(v, m, g) && SearchedBefore(l, f, m, g) ==> Newer(f, g)
  }

  ghost predicate UniqueNumbers(v: Version) {
    forall l, f, m, g :: InLevel(v, l, f) && InLevel(v, m, g) && f.number == g.number ==> l == m && f == g
  }

  ghost predicate VersionOk(v: Version) {
    && |v| == NUM_LEVELS
    && (forall l :: 0 <= l < |v| ==> ValidFiles(v[l]))
    && (forall l :: 1 <= l < |v| ==> SortedLevel(v[l]))
    && Distinct(v[0])
    && LevelOrder(v)
    && UniqueNumbers(v)
    && Functional(VersionEntries(v))
  }

  ghost function VersionEntries(v: Version): set<Entry> {
    set l, i, e | 0 <= l < |v| && 0 <= i < |v[l]| && e in v[l][i].entries :: e
  }

  lemma InVersion(v: Version, e: Entry)
    ensures e in VersionEntries(v) <==> exists l, f :: InLevel(v, l, f) && e in f.entries
  {
    if l: nat, f :| InLevel(v, l, f) && e in f.entries {
      var i :| 0 <= i < |v[l]| && v[l][i] == f;
      assert e in v[l][i].entries;
    }
    if e in VersionEntries(v) {
      var l, i :| 0 <= l < |v| && 0 <= i < |v[l]| && e in v[l][i].entries;
      assert InLevel(v, l, v[l][i]);
    }
  }

  // ---------- searching one level ----------

  ghost predicate NoneVisible(files: seq<FileMeta>, u: UserKey, s: nat) {
    forall f, e :: f in files && e in f.entries ==> !Visible(e, u, s)
  }

  /** `e` is the newest visible entry of `u` among these files. */
  ghost predicate NewestAmong(files: seq<FileMeta>, u: UserKey, s: nat, e: Entry) {
    && (exists f :: f in files && e in f.entries)
    && Visible(e, u, s)
    && forall f, x :: f in files && x in f.entries && Visible(x, u, s) ==> x.key.sequence <= e.key.sequence
  }

  function InsertNewestFirst(f: FileMeta, files: seq<FileMeta>): (r: seq<FileMeta>)
    ensures forall g :: g in r <==> g == f || g in files
    ensures SortedNewestFirst(files) ==> SortedNewestFirst(r)
  {
    if files == [] then [f]
    else if f.number > files[0].number then [f] + files
    else
      var rest := InsertNewestFirst(f, files[1..]);
      assert SortedNewestFirst(files) ==> forall g :: g in rest ==> files[0].number >= g.number;
      [files[0]] + rest
  }

  predicate SortedNewestFirst(files: seq<FileMeta>) {
    forall i, j :: 0 <= i < j < |files| ==> files[i].number >= files[j].number
  }

  /** Files ordered by descending number. */
  function NewestFirst(files: seq<FileMeta>): (r: seq<FileMeta>)
    ensures SortedNewestFirst(r)
    ensures forall g :: g in r <==> g in files
  {
    if files == [] then [] else InsertNewestFirst(files[0], NewestFirst(files[1..]))
  }

  /** The files of level 0 a read of `u` must search, newest first. */
  method LevelZeroCandidates(files: seq<FileMeta>, u: UserKey) returns (tmp: seq<FileMeta>)
    ensures SortedNewestFirst(tmp)
    ensures forall f :: f in tmp <==> f in files && f.smallest.user <= u <= f.largest.user
  {
    tmp := [];
    for i := 0 to |files|
      invariant forall f :: f in tmp <==> f in files[..i] && f.smallest.user <= u <= f.largest.user
    {
      if u >= files[i].smallest.user && u <= files[i].largest.user {
        tmp := tmp + [files[i]];
      }
    }
    assert files[..|files|] == files;
    tmp := NewestFirst(tmp);
  }

  /** The one file of a sorted level that can hold the newest visible entry of `u`. */
  method SortedLevelCandidate(files: seq<FileMeta>, u: UserKey, s: nat) returns (c: seq<FileMeta>)
    requires ValidFiles(files) && SortedLevel(files)
    ensures var i := EndBefore(files, LookupKey(u, s));
            c == if i < |files| && files[i].smallest.user <= u then [files[i]] else []
    ensures c == [] ==> NoneVisible(files, u, s)
    ensures |c| == 1 ==> (NoneVisible(c, u, s) ==> NoneVisible(files, u, s))
    ensures |c| == 1 ==> forall e :: NewestAmong(c, u, s, e) ==> NewestAmong(files, u, s, e)
  {
    var index := FindFile(files, LookupKey(u, s));
    EndBeforeIs(files, LookupKey(u, s), index);
    CandidateDecides(files, index, u, s);
    if index >= |files| {
      c := [];
    } else {
      c := [files[index]];
      if u < files[index].smallest.user {
        c := [];
      }
    }
  }

  lemma CandidateDecides(files: seq<FileMeta>, index: nat, u: UserKey, s: nat)
    requires ValidFiles(files) && SortedLevel(files) && index <= |files|
    requires forall i :: 0 <= i < index ==> Less(files[i].largest, LookupKey(u, s))
    requires index < |files| ==> !Less(files[index].largest, LookupKey(u, s))
    ensures index == |files| ==> NoneVisible(files, u, s)
    ensures index < |files| && u < files[index].smallest.user ==> NoneVisible(files, u, s)
    ensures index < |files| && NoneVisible([files[index]], u, s) ==> NoneVisible(files, u, s)
    ensures index < |files| ==> forall e :: NewestAmong([files[index]], u, s, e) ==> NewestAmong(files, u, s, e)
  {
    forall i, x | 0 <= i < |files| && x in files[i].entries && Visible(x, u, s)
      ensures index < |files| && (exists y :: y in files[index].entries && Visible(y, u, s))
      ensures forall y :: i != index && y in files[index].entries && y.key.user == u ==>
                x.key.sequence <= y.key.sequence
      ensures files[index].smallest.user <= u
    {
      EntryInRange(files[i], x);
      assert index <= i;
      if index < i {
        BeyondCandidate(files, index, i, x, u, s);
      }
    }
    if index < |files| {
      assert [files[index]][0] in [files[index]];
    }
  }

  /** In a sorted level, once a file ends at or after the lookup key, later files only hold older entries. */
  lemma BeyondCandidate(files: seq<FileMeta>, index: nat, i: nat, x: Entry, u: UserKey, s: nat)
    requires ValidFiles(files) && SortedLevel(files) && index < i < |files|
    requires !Less(files[index].largest, LookupKey(u, s))
    requires x in files[i].entries && Visible(x, u, s)
    ensures exists y :: y in files[index].entries && Visible(y, u, s)
    ensures files[index].smallest.user <= u
    ensures forall y :: y in files[index].entries && y.key.user == u ==> x.key.sequence <= y.key.sequence
  {
    var f := files[index];
    RangeOfFile(f);
    EntryInRange(files[i], x);
    assert Less(f.largest, files[i].smallest);
    var last := f.entries[|f.entries| - 1];
    assert last in f.entries && Visible(last, u, s);
    forall y | y in f.entries && y.key.user == u ensures x.key.sequence <= y.key.sequence {
      EntryInRange(f, y);
    }
  }

  /** Level-0 files: a higher number means newer, and numbers are unique. */
  ghost predicate NumberOrder(files: seq<FileMeta>) {
    forall f, g :: f in files && g in files ==>
      (f.number > g.number ==> Newer(f, g)) && (f.number == g.number ==> f == g)
  }

  /** Searches the files of one level in the order a read visits them. */
  method SearchLevel(level: nat, levelFiles: seq<FileMeta>, u: UserKey, s: nat) returns (r: Option<Entry>)
    requires ValidFiles(levelFiles)
    requires if level == 0 then NumberOrder(levelFiles) else SortedLevel(levelFiles)
    ensures r.Some? ==> NewestAmong(levelFiles, u, s, r.value)
    ensures r.None? ==> NoneVisible(levelFiles, u, s)
  {
    var files;
    if level == 0 {
      files := LevelZeroCandidates(levelFiles, u);
      NonCandidates(levelFiles, files, u, s);
    } else {
      files := SortedLevelCandidate(levelFiles, u, s);
    }
    for i := 0 to |files|
      invariant forall j, x :: 0 <= j < i && x in files[j].entries ==> !Visible(x, u, s)
    {
      r := Lookup(files[i].entries, u, s);
      assert ValidFile(files[i]);
      LookupFindsNewest(files[i].entries, u, s);
      if r.Some? {
        if level == 0 {
          LevelZeroHit(levelFiles, files, i, u, s, r.value);
        } else {
          OnlyFileHit(files[i], u, s, r.value);
          assert files == [files[i]];
        }
        return;
      }
    }
    r := None;
    assert NoneVisible(files, u, s);
  }

  lemma LevelZeroNumbered(v: Version)
    requires VersionOk(v)
    ensures NumberOrder(v[0])
  {
    forall f, g | f in v[0] && g in v[0]
      ensures (f.number > g.number ==> Newer(f, g)) && (f.number == g.number ==> f == g)
    {
      assert InLevel(v, 0, f) && InLevel(v, 0, g);
      assert f.number > g.number ==> SearchedBefore(0, f, 0, g);
    }
  }

  /** `Version::Get`: level by level, stopping at the first file that has an entry for the key. */
  method Get(v: Version, u: UserKey, s: nat) returns (r: Option<Entry>)
    requires VersionOk(v)
    ensures r.Some? ==> IsNewest(VersionEntries(v), u, s, r.value)
    ensures r.None? ==> forall e :: e in VersionEntries(v) ==> !Visible(e, u, s)
  {
    LevelZeroNumbered(v);
    for level := 0 to NUM_LEVELS
      invariant forall l :: 0 <= l < level ==> NoneVisible(v[l], u, s)
    {
      r := SearchLevel(level, v[level], u, s);
      if r.Some? {
        FirstLevelWins(v, level, u, s, r.value);
        return;
      }
    }
    r := None;
    forall e | e in VersionEntries(v) ensures !Visible(e, u, s) {
      InVersion(v, e);
    }
  }

  /** Level-0 files whose range does not contain the key hold no entry of it. */
  lemma NonCandidates(files: seq<FileMeta>, c: seq<FileMeta>, u: UserKey, s: nat)
    requires ValidFiles(files)
    requires forall f :: f in c <==> f in files && f.smallest.user <= u <= f.largest.user
    ensures NoneVisible(c, u, s) ==> NoneVisible(files, u, s)
    ensures forall e :: NewestAmong(c, u, s, e) ==> NewestAmong(files, u, s, e)
  {
    forall f, e | f in files && f !in c && e in f.entries ensures !Visible(e, u, s) {
      EntryInRange(f, e);
    }
  }

  lemma LevelZeroHit(levelFiles: seq<FileMeta>, files: seq<FileMeta>, i: nat, u: UserKey, s: nat, e: Entry)
    requires ValidFiles(levelFiles) && NumberOrder(levelFiles) && i < |files| && SortedNewestFirst(files)
    requires forall f :: f in files <==> f in levelFiles && f.smallest.user <= u <= f.largest.user
    requires forall j, x :: 0 <= j < i && x in files[j].entries ==> !Visible(x, u, s)
    requires IsNewest(Contents(files[i].entries), u, s, e)
    ensures NewestAmong(levelFiles, u, s, e)
  {
    NonCandidates(levelFiles, files, u, s);
    assert files[i] in files && files[i] in levelFiles;
    forall f, x | f in files && x in f.entries && Visible(x, u, s) ensures x.key.sequence <= e.key.sequence {
      var j :| 0 <= j < |files| && files[j] == f;
      assert i <= j;
      if f.number == files[i].number {
        assert f == files[i];
      } else {
        assert Newer(files[i], f);
      }
    }
    assert NewestAmong(files, u, s, e);
  }

  lemma OnlyFileHit(f: FileMeta, u: UserKey, s: nat, e: Entry)
    requires IsNewest(Contents(f.entries), u, s, e)
    ensures NewestAmong([f], u, s, e)
  {
    assert f in [f];
  }

  /** The newest entry of the first level that has one is the newest of the version. */
  lemma FirstLevelWins(v: Version, level: nat, u: UserKey, s: nat, e: Entry)
    requires VersionOk(v) && level < NUM_LEVELS
    requires forall l :: 0 <= l < level ==> NoneVisible(v[l], u, s)
    requires NewestAmong(v[level], u, s, e)
    ensures IsNewest(VersionEntries(v), u, s, e)
  {
    var f :| f in v[level] && e in f.entries;
    assert InLevel(v, level, f);
    InVersion(v, e);
    forall x | x in VersionEntries(v) && Visible(x, u, s) ensures x.key.sequence <= e.key.sequence {
      InVersion(v, x);
      var m, g :| InLevel(v, m, g) && x in g.entries;
      if level < m {
        assert SearchedBefore(level, f, m, g);
      }
    }
  }
}
