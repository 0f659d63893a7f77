/** Version edits and the builder that applies them (db/version_set.cc, VersionSet::Builder and LogAndApply). */
module Edits {
  import opened InternalKeys
  import opened Files
  import opened Versions

  /** Files removed from and added to levels; file metadata is identified by number within a level. */
  datatype VersionEdit = VersionEdit(deleted: set<(nat, nat)>, added: seq<(nat, FileMeta)>)

  /** By smallest key, ties broken by file number. */
  predicate BySmallest(f: FileMeta, g: FileMeta) {
    Less(f.smallest, g.smallest) || (f.smallest == g.smallest && f.number < g.number)
  }

  ghost predicate Ordered(files: seq<FileMeta>) {
    forall i, j :: 0 <= i < j < |files| ==> BySmallest(files[i], files[j])
  }

  lemma BySmallestTotal(f: FileMeta, g: FileMeta)
    ensures f.number != g.number ==> BySmallest(f, g) || BySmallest(g, f)
    ensures !(BySmallest(f, g) && BySmallest(g, f)) && !BySmallest(f, f)
  {
    LessTotal(f.smallest, g.smallest);
  }

  lemma BySmallestTransitive(f: FileMeta, g: FileMeta, h: FileMeta)
    requires BySmallest(f, g) && BySmallest(g, h)
    ensures BySmallest(f, h)
  {
  }

  /** Insertion into the ordered set of added files; an equivalent element is left in place. */
  function InsertOrdered(files: seq<FileMeta>, f: FileMeta): (r: seq<FileMeta>) {
    if files == [] || BySmallest(f, files[0]) then [f] + files
    else if BySmallest(files[0], f) then [files[0]] + InsertOrdered(files[1..], f)
    else files
  }

  lemma {:induction false} InsertOrderedWorks(files: seq<FileMeta>, f: FileMeta)
    requires Ordered(files) && forall g :: g in files && g.number == f.number ==> g == f
    ensures Ordered(InsertOrdered(files, f))
    ensures forall g :: g in InsertOrdered(files, f) <==> g in files || g == f
  {
    if files == [] {
    } else if BySmallest(f, files[0]) {
      forall i | 0 <= i < |files| ensures BySmallest(f, files[i]) {
        if i > 0 { BySmallestTransitive(f, files[0], files[i]); }
      }
    } else if BySmallest(files[0], f) {
      InsertOrderedWorks(files[1..], f);
      var rest := InsertOrdered(files[1..], f);
      forall g | g in rest ensures BySmallest(files[0], g) {
        if g in files[1..] {
          var i :| 0 <= i < |files[1..]| && files[1..][i] == g;
          assert files[i + 1] == g;
        }
      }
    } else {
      BySmallestTotal(f, files[0]);
      assert files[0] in files;
    }
  }

  /** The live files of a level, in order. */
  ghost predicate Built(base: seq<FileMeta>, added: seq<FileMeta>, deleted: set<nat>, files: seq<FileMeta>) {
    && Ordered(files)
    && forall f :: f in files <==> (f in base || f in added) && f.number !in deleted
  }

  /** Merges the added files of one level into its base files and leaves out the deleted ones. */
  method SaveLevel(base: seq<FileMeta>, added: seq<FileMeta>, deleted: set<nat>) returns (files: seq<FileMeta>)
    requires Ordered(base) && Ordered(added)
    requires forall f, g :: f in base && g in added ==> f.number != g.number
    ensures Built(base, added, deleted, files)
  {
    hide BySmallest;
    files := [];
    var bi, ai := 0, 0;
    while ai < |added|
      invariant bi <= |base| && ai <= |added|
      invariant Saved(base, bi, added, ai, deleted, files)
    {
      while bi < |base| && !BySmallest(added[ai], base[bi])
        invariant bi <= |base|
        invariant Saved(base, bi, added, ai, deleted, files)
      {
        assert base[bi] in base && added[ai] in added;
        BySmallestTotal(added[ai], base[bi]);
        files := SaveBase(base, bi, added, ai, deleted, files);
        bi := bi + 1;
      }
      files := SaveAdded(base, bi, added, ai, deleted, files);
      ai := ai + 1;
    }
    while bi < |base|
      invariant bi <= |base|
      invariant Saved(base, bi, added, ai, deleted, files)
    {
      files := SaveBase(base, bi, added, ai, deleted, files);
      bi := bi + 1;
    }
    assert base[..bi] == base && added[..ai] == added;
  }

  /** Part of the merge: the live ones among the first `bi` and `ai` files are in place, all before the rest. */
  ghost predicate Saved(base: seq<FileMeta>, bi: nat, added: seq<FileMeta>, ai: nat, deleted: set<nat>,
                        files: seq<FileMeta>)
    requires bi <= |base| && ai <= |added|
  {
    && Ordered(files)
    && (forall f :: f in files <==> (f in base[..bi] || f in added[..ai]) && f.number !in deleted)
    && (forall f, j :: f in files && bi <= j < |base| ==> BySmallest(f, base[j]))
    && (forall f, j :: f in files && ai <= j < |added| ==> BySmallest(f, added[j]))
  }

  /** Appends a file unless it is deleted. */
  method MaybeAddFile(files: seq<FileMeta>, f: FileMeta, deleted: set<nat>) returns (r: seq<FileMeta>)
    ensures r == if f.number in deleted then files else files + [f]
  {
    if f.number in deleted {
      r := files;
    } else {
      r := files + [f];
    }
  }

  method SaveBase(base: seq<FileMeta>, bi: nat, added: seq<FileMeta>, ai: nat, deleted: set<nat>, files: seq<FileMeta>)
    returns (r: seq<FileMeta>)
    requires Ordered(base) && Ordered(added) && bi < |base| && ai <= |added|
    requires Saved(base, bi, added, ai, deleted, files)
    requires ai < |added| ==> BySmallest(base[bi], added[ai])
    ensures Saved(base, bi + 1, added, ai, deleted, r)
  {
    hide BySmallest;
    r := MaybeAddFile(files, base[bi], deleted);
    assert base[..bi + 1] == base[..bi] + [base[bi]];
    forall j | ai <= j < |added| ensures BySmallest(base[bi], added[j]) {
      if ai < j { BySmallestTransitive(base[bi], added[ai], added[j]); }
    }
    forall i | 0 <= i < |files| ensures BySmallest(files[i], base[bi]) {
      assert files[i] in files;
    }
  }

  method SaveAdded(base: seq<FileMeta>, bi: nat, added: seq<FileMeta>, ai: nat, deleted: set<nat>, files: seq<FileMeta>)
    returns (r: seq<FileMeta>)
    requires Ordered(base) && Ordered(added) && bi <= |base| && ai < |added|
    requires Saved(base, bi, added, ai, deleted, files)
    requires bi < |base| ==> BySmallest(added[ai], base[bi])
    ensures Saved(base, bi, added, ai + 1, deleted, r)
  {
    hide BySmallest;
    r := MaybeAddFile(files, added[ai], deleted);
    assert added[..ai + 1] == added[..ai] + [added[ai]];
    forall j | bi <= j < |base| ensures BySmallest(added[ai], base[j]) {
      if bi < j { BySmallestTransitive(added[ai], base[bi], base[j]); }
    }
    forall i | 0 <= i < |files| ensures BySmallest(files[i], added[ai]) {
      assert files[i] in files;
    }
  }

  // ---------- whole versions ----------

  ghost function DeletedAt(edit: VersionEdit, l: nat): set<nat> {
    set p | p in edit.deleted && p.0 == l :: p.1
  }

  ghost predicate AddsAt(edit: VersionEdit, l: nat, f: FileMeta) {
    (l, f) in edit.added
  }

  /** What one edit means for one level: the files that were there and are not deleted, and the added ones. */
  ghost predicate LevelApplied(before: seq<FileMeta>, edit: VersionEdit, l: nat, after: seq<FileMeta>) {
    && Ordered(after)
    && forall f :: f in after <==> (f in before && f.number !in DeletedAt(edit, l)) || AddsAt(edit, l, f)
  }

  ghost predicate Applied(v: Version, edit: VersionEdit, v': Version) {
    |v| == |v'| == NUM_LEVELS && forall l :: 0 <= l < NUM_LEVELS ==> LevelApplied(v[l], edit, l, v'[l])
  }

  ghost predicate AllOrdered(v: Version) {
    |v| == NUM_LEVELS && forall l :: 0 <= l < NUM_LEVELS ==> Ordered(v[l])
  }

  ghost predicate LevelsExist(edit: VersionEdit) {
    && (forall p :: p in edit.added ==> p.0 < NUM_LEVELS)
    && (forall p :: p in edit.deleted ==> p.0 < NUM_LEVELS)
  }

  /** Among the files an edit adds to a level and those added before, a number names one file. */
  ghost predicate NamesOne(added: seq<FileMeta>, edit: VersionEdit, l: nat) {
    forall f, g :: AddsAt(edit, l, f) && (AddsAt(edit, l, g) || g in added) && f.number == g.number ==> f == g
  }

  /** The builder state of one level after one more edit. */
  ghost predicate Accumulated(added: seq<FileMeta>, deleted: set<nat>, edit: VersionEdit, l: nat, added': seq<FileMeta>,
                              deleted': set<nat>) {
    && (forall f :: f in added' <==> f in added || AddsAt(edit, l, f))
    && (forall n :: n in deleted' <==> (n in deleted || n in DeletedAt(edit, l)) && !AddsNumber(edit, l, n))
  }

  ghost predicate AddsNumber(edit: VersionEdit, l: nat, n: nat) {
    exists f :: AddsAt(edit, l, f) && f.number == n
  }

  /** Accumulates edits over a base version without building the versions in between. */
  class Builder {
    const base: Version
    var deleted: seq<set<nat>>
    var added: seq<seq<FileMeta>>

    ghost predicate Valid()
      reads this
    {
      && AllOrdered(base)
      && |deleted| == |added| == NUM_LEVELS
      && forall l :: 0 <= l < NUM_LEVELS ==> Ordered(added[l])
    }

    constructor (base: Version)
      requires AllOrdered(base)
      ensures Valid() && this.base == base
      ensures forall l :: 0 <= l < NUM_LEVELS ==> deleted[l] == {} && added[l] == []
    {
      this.base := base;
      deleted := seq(NUM_LEVELS, _ => {});
      added := seq(NUM_LEVELS, _ => []);
    }

    /** Deletions first; an added file is no longer deleted. */
    method Apply(edit: VersionEdit)
      requires Valid() && LevelsExist(edit)
      requires forall l :: 0 <= l < NUM_LEVELS ==> NamesOne(added[l], edit, l)
      modifies this
      ensures Valid()
      ensures forall l :: 0 <= l < NUM_LEVELS ==>
                Accumulated(old(added[l]), old(deleted[l]), edit, l, added[l], deleted[l])
    {
      deleted := seq(NUM_LEVELS, l requires 0 <= l < NUM_LEVELS && |deleted| == NUM_LEVELS reads this =>
        deleted[l] + (set p | p in edit.deleted && p.0 == l :: p.1));
      for i := 0 to |edit.added|
        invariant Valid()
        invariant forall l :: 0 <= l < NUM_LEVELS ==>
                    Accumulated(old(added[l]), old(deleted[l]), edit.(added := edit.added[..i]), l, added[l],
                                deleted[l])
      {
        var (level, f) := edit.added[i];
        assert edit.added[i] in edit.added && AddsAt(edit, level, f);
        ghost var done, next := edit.(added := edit.added[..i]), edit.(added := edit.added[..i + 1]);
        assert edit.added[..i + 1] == edit.added[..i] + [(level, f)];
        forall g | g in added[level] && g.number == f.number ensures g == f {
          assert g in old(added[level]) || AddsAt(done, level, g);
          assert AddsAt(done, level, g) ==> AddsAt(edit, level, g);
        }
        InsertOrderedWorks(added[level], f);
        forall l, g ensures AddsAt(next, l, g) <==> AddsAt(done, l, g) || (l == level && g == f) {
        }
        forall l, n ensures AddsNumber(next, l, n) <==> AddsNumber(done, l, n) || (l == level && n == f.number) {
          if l == level && n == f.number {
            assert AddsAt(next, l, f);
          } else if AddsNumber(done, l, n) {
            var g :| AddsAt(done, l, g) && g.number == n;
            assert AddsAt(next, l, g);
          }
        }
        deleted := deleted[level := deleted[level] - {f.number}];
        added := added[level := InsertOrdered(added[level], f)];
      }
      assert edit.added[..|edit.added|] == edit.added;
    }

    /** The version the accumulated edits lead to. */
    method SaveTo() returns (v: Version)
      requires Valid()
      requires forall l, f, g :: 0 <= l < NUM_LEVELS && f in base[l] && g in added[l] ==> f.number != g.number
      ensures |v| == NUM_LEVELS
      ensures forall l :: 0 <= l < NUM_LEVELS ==> Built(base[l], added[l], deleted[l], v[l])
    {
      v := [];
      for level := 0 to NUM_LEVELS
        invariant |v| == level
        invariant forall l :: 0 <= l < level ==> Built(base[l], added[l], deleted[l], v[l])
      {
        var files := SaveLevel(base[level], added[level], deleted[level]);
        v := v + [files];
      }
    }
  }

  /** Added files are new to their level, and their numbers name one file each. */
  ghost predicate Fresh(v: Version, edit: VersionEdit) {
    && LevelsExist(edit)
    && (forall l, f, g :: 0 <= l < |v| && AddsAt(edit, l, f) && g in v[l] ==> f.number != g.number)
    && (forall l, f, g :: AddsAt(edit, l, f) && AddsAt(edit, l, g) && f.number == g.number ==> f == g)
  }

  /** `LogAndApply`, the version part: one edit through a builder. */
  method LogAndApply(v: Version, edit: VersionEdit) returns (v': Version)
    requires AllOrdered(v) && Fresh(v, edit)
    ensures Applied(v, edit, v')
  {
    var builder := new Builder(v);
    builder.Apply(edit);
    v' := builder.SaveTo();
    forall l | 0 <= l < NUM_LEVELS ensures LevelApplied(v[l], edit, l, v'[l]) {
      assert Built(v[l], builder.added[l], builder.deleted[l], v'[l]);
      forall f | AddsAt(edit, l, f) ensures AddsNumber(edit, l, f.number) {
      }
    }
  }

  // ---------- manifest replay ----------

  const NO_FILES: Version := [[], [], [], [], [], [], []]

  /** The versions a live database goes through when it installs the edits one by one. */
  ghost predicate Installs(chain: seq<Version>, edits: seq<VersionEdit>) {
    && |chain| == |edits| + 1
    && chain[0] == NO_FILES
    && forall i :: 0 <= i < |edits| ==> Applied(chain[i], edits[i], chain[i + 1])
  }

  /** A file number names one file of a level throughout the manifest. */
  ghost predicate NumbersName(edits: seq<VersionEdit>) {
    forall l, f, g, i, j :: 0 <= i < |edits| && 0 <= j < |edits| && AddsAt(edits[i], l, f) && AddsAt(edits[j], l, g) ==>
      f.number == g.number ==> f == g
  }

  /** The builder's accumulated state stands for this level of the live version. */
  ghost predicate Mirrors(files: seq<FileMeta>, added: seq<FileMeta>, deleted: set<nat>) {
    forall f :: f in files <==> f in added && f.number !in deleted
  }

  ghost predicate AddedSoFar(edits: seq<VersionEdit>, n: nat, l: nat, added: seq<FileMeta>)
    requires n <= |edits|
  {
    forall f :: f in added ==> exists i :: 0 <= i < n && AddsAt(edits[i], l, f)
  }

  /** Folding a manifest through one builder gives exactly the version the live database had. */
  method Recover(edits: seq<VersionEdit>, ghost chain: seq<Version>) returns (v: Version)
    requires forall i :: 0 <= i < |edits| ==> LevelsExist(edits[i])
    requires NumbersName(edits) && Installs(chain, edits)
    ensures v == chain[|edits|]
  {
    hide Installs, NumbersName, Built, Accumulated;
    var builder := new Builder(NO_FILES);
    ReplayBegins(edits, chain, builder.added, builder.deleted);
    for n := 0 to |edits|
      invariant builder.Valid() && builder.base == NO_FILES && ReplayAt(edits, chain, n, builder.added, builder.deleted)
    {
      ghost var added, deleted := builder.added, builder.deleted;
      ReplayReady(edits, chain, n, added, deleted);
      builder.Apply(edits[n]);
      ReplayOn(edits, chain, n, added, deleted, builder.added, builder.deleted);
    }
    v := builder.SaveTo();
    ReplayEnds(edits, chain, |edits|, builder.added, builder.deleted, v);
  }

  /** The builder's state after the first `i` edits stands for the live version. */
  ghost predicate ReplayAt(values: seq<VersionEdit>, chain: seq<Version>, i: nat, added: seq<seq<FileMeta>>,
                           deleted: seq<set<nat>>) {
    && i <= |values| && |chain| == |values| + 1 && |chain[i]| == |added| == |deleted| == NUM_LEVELS
    && (forall l :: 0 <= l < NUM_LEVELS ==> AddedSoFar(values, i, l, added[l]))
    && (forall l :: 0 <= l < NUM_LEVELS ==> Mirrors(chain[i][l], added[l], deleted[l]))
  }

  lemma ReplayBegins(values: seq<VersionEdit>, chain: seq<Version>, added: seq<seq<FileMeta>>, deleted: seq<set<nat>>)
    requires Installs(chain, values) && |added| == |deleted| == NUM_LEVELS
    requires forall l :: 0 <= l < NUM_LEVELS ==> deleted[l] == {} && added[l] == []
    ensures ReplayAt(values, chain, 0, added, deleted)
  {
  }

  lemma ReplayReady(values: seq<VersionEdit>, chain: seq<Version>, i: nat, added: seq<seq<FileMeta>>,
                    deleted: seq<set<nat>>)
    requires ReplayAt(values, chain, i, added, deleted) && NumbersName(values) && i < |values|
    ensures forall l :: 0 <= l < NUM_LEVELS ==> NamesOne(added[l], values[i], l)
  {
    forall l | 0 <= l < NUM_LEVELS ensures NamesOne(added[l], values[i], l) {
      OneName(values, i, l, added[l]);
    }
  }

  lemma ReplayOn(values: seq<VersionEdit>, chain: seq<Version>, i: nat, added: seq<seq<FileMeta>>,
                 deleted: seq<set<nat>>,
                 added': seq<seq<FileMeta>>, deleted': seq<set<nat>>)
    requires ReplayAt(values, chain, i, added, deleted) && NumbersName(values) && Installs(chain, values)
    requires i < |values|
    requires |added'| == |deleted'| == NUM_LEVELS
    requires forall l :: 0 <= l < NUM_LEVELS ==> Accumulated(added[l], deleted[l], values[i], l, added'[l], deleted'[l])
    ensures ReplayAt(values, chain, i + 1, added', deleted')
  {
    hide Accumulated, NumbersName, Mirrors, AddedSoFar, LevelApplied;
    assert Applied(chain[i], values[i], chain[i + 1]);
    forall l | 0 <= l < NUM_LEVELS
      ensures AddedSoFar(values, i + 1, l, added'[l]) && Mirrors(chain[i + 1][l], added'[l], deleted'[l])
    {
      assert LevelApplied(chain[i][l], values[i], l, chain[i + 1][l]);
      ReplayStep(values, i, l, chain[i][l], chain[i + 1][l], added[l], deleted[l], added'[l], deleted'[l]);
    }
  }

  lemma ReplayEnds(values: seq<VersionEdit>, chain: seq<Version>, m: nat, added: seq<seq<FileMeta>>,
                   deleted: seq<set<nat>>, v: Version)
    requires ReplayAt(values, chain, m, added, deleted) && Installs(chain, values)
    requires |v| == NUM_LEVELS && forall l :: 0 <= l < NUM_LEVELS ==> Built(NO_FILES[l], added[l], deleted[l], v[l])
    ensures v == chain[m]
  {
    ChainOrdered(chain, values, m);
    forall l | 0 <= l < NUM_LEVELS ensures v[l] == chain[m][l] {
      assert Built(NO_FILES[l], added[l], deleted[l], v[l]);
      OrderedUnique(v[l], chain[m][l]);
    }
  }

  lemma ChainOrdered(chain: seq<Version>, edits: seq<VersionEdit>, n: nat)
    requires Installs(chain, edits) && n <= |edits|
    ensures AllOrdered(chain[n])
  {
    if n > 0 {
      assert Applied(chain[n - 1], edits[n - 1], chain[n]);
      forall l | 0 <= l < NUM_LEVELS ensures Ordered(chain[n][l]) {
        assert LevelApplied(chain[n - 1][l], edits[n - 1], l, chain[n][l]);
      }
    }
  }

  lemma OneName(edits: seq<VersionEdit>, n: nat, l: nat, added: seq<FileMeta>)
    requires NumbersName(edits) && n < |edits| && AddedSoFar(edits, n, l, added)
    ensures NamesOne(added, edits[n], l)
  {
    forall f, g | AddsAt(edits[n], l, f) && (AddsAt(edits[n], l, g) || g in added) && f.number == g.number
      ensures f == g
    {
      if g in added {
        var i :| 0 <= i < n && AddsAt(edits[i], l, g);
      }
    }
  }

  lemma ReplayStep(edits: seq<VersionEdit>, n: nat, l: nat, files: seq<FileMeta>, files': seq<FileMeta>,
                   added: seq<FileMeta>, deleted: set<nat>, added': seq<FileMeta>, deleted': set<nat>)
    requires NumbersName(edits) && n < |edits| && AddedSoFar(edits, n, l, added)
    requires Mirrors(files, added, deleted)
    requires LevelApplied(files, edits[n], l, files')
    requires Accumulated(added, deleted, edits[n], l, added', deleted')
    ensures AddedSoFar(edits, n + 1, l, added') && Mirrors(files', added', deleted')
  {
    forall f | f in added' ensures exists i :: 0 <= i < n + 1 && AddsAt(edits[i], l, f) {
      if f in added {
        var i :| 0 <= i < n && AddsAt(edits[i], l, f);
      } else {
        assert AddsAt(edits[n], l, f);
      }
    }
    forall f | f in added' ensures AddsNumber(edits[n], l, f.number) <==> AddsAt(edits[n], l, f) {
      if g :| AddsAt(edits[n], l, g) && g.number == f.number {
        var i :| 0 <= i < n + 1 && AddsAt(edits[i], l, f);
        assert g == f;
      }
    }
    assert forall f :: f in files' ==> f in added';
  }

  /** An ordered file list is determined by the files in it. */
  lemma {:induction false} OrderedUnique(a: seq<FileMeta>, b: seq<FileMeta>)
    requires Ordered(a) && Ordered(b) && forall f :: f in a <==> f in b
    ensures a == b
  {
    if a == [] || b == [] {
      SameEmptiness(a, b);
      SameEmptiness(b, a);
    } else {
      assert a[0] in b && b[0] in a;
      var i :| 0 <= i < |b| && b[i] == a[0];
      var j :| 0 <= j < |a| && a[j] == b[0];
      BySmallestTotal(a[0], b[0]);
      assert i == 0 && j == 0;
      forall f ensures f in a[1..] <==> f in b[1..] {
        TailMember(a, f);
        TailMember(b, f);
      }
      OrderedUnique(a[1..], b[1..]);
      assert a == [a[0]] + a[1..] && b == [b[0]] + b[1..];
    }
  }

  lemma SameEmptiness(a: seq<FileMeta>, b: seq<FileMeta>)
    requires forall f :: f in a ==> f in b
    ensures b == [] ==> a == []
  {
    if a != [] {
      assert a[0] in a;
    }
  }

  lemma TailMember(a: seq<FileMeta>, f: FileMeta)
    requires Ordered(a) && a != []
    ensures f in a[1..] <==> f in a && f != a[0]
  {
    if i :| 0 <= i < |a[1..]| && a[1..][i] == f {
      assert a[i + 1] == f;
      BySmallestTotal(a[0], a[i + 1]);
    }
    if i :| 0 <= i < |a| && a[i] == f && f != a[0] {
      assert a[1..][i - 1] == f;
    }
  }
}
