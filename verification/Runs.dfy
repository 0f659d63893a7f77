/** Sorted runs of entries and their merge: what a merging iterator yields from its children. */
module Runs {
  import opened InternalKeys
  import opened Files

  /** No key occurs in both runs. */
  ghost predicate DisjointKeys(a: seq<Entry>, b: seq<Entry>) {
    forall x, y :: x in a && y in b ==> x.key != y.key
  }

  function Merge(a: seq<Entry>, b: seq<Entry>): (m: seq<Entry>)
    ensures forall e :: e in m <==> e in a || e in b
  {
    if a == [] then b
    else if b == [] then a
    else if Less(b[0].key, a[0].key) then [b[0]] + Merge(a, b[1..])
    else [a[0]] + Merge(a[1..], b)
  }

  lemma {:induction false} MergeSorted(a: seq<Entry>, b: seq<Entry>)
    requires Sorted(a) && Sorted(b) && DisjointKeys(a, b)
    ensures Sorted(Merge(a, b))
  {
    if a != [] && b != [] {
      if Less(b[0].key, a[0].key) {
        MergeSorted(a, b[1..]);
        HeadFirst(b[0], b, a, Merge(a, b[1..]));
      } else {
        LessTotal(a[0].key, b[0].key);
        MergeSorted(a[1..], b);
        HeadFirst(a[0], a, b, Merge(a[1..], b));
      }
    }
  }

  lemma HeadFirst(h: Entry, own: seq<Entry>, other: seq<Entry>, rest: seq<Entry>)
    requires own != [] && own[0] == h && Sorted(own) && other != [] && Sorted(other) && Less(h.key, other[0].key)
    requires Sorted(rest) && forall e :: e in rest <==> e in own[1..] || e in other
    ensures Sorted([h] + rest)
  {
    forall e | e in rest ensures Less(h.key, e.key) {
      if e in own[1..] {
        var i :| 0 <= i < |own[1..]| && own[1..][i] == e;
        assert own[i + 1] == e;
      } else {
        var i :| 0 <= i < |other| && other[i] == e;
        assert i > 0 ==> Less(other[0].key, other[i].key);
      }
    }
  }

  ghost predicate DisjointRuns(runs: seq<seq<Entry>>) {
    forall i, j :: 0 <= i < j < |runs| ==> DisjointKeys(runs[i], runs[j])
  }

  /** The sorted union of any number of runs. */
  function MergeAll(runs: seq<seq<Entry>>): (m: seq<Entry>)
    ensures forall e :: e in m <==> exists i :: 0 <= i < |runs| && e in runs[i]
  {
    if runs == [] then []
    else
      var rest := MergeAll(runs[1..]);
      var m := Merge(runs[0], rest);
      assert forall e :: e in rest ==> exists i :: 1 <= i < |runs| && e in runs[i] by {
        forall e | e in rest ensures exists i :: 1 <= i < |runs| && e in runs[i] {
          var i :| 0 <= i < |runs[1..]| && e in runs[1..][i];
          assert e in runs[i + 1];
        }
      }
      assert forall i, e :: 1 <= i < |runs| && e in runs[i] ==> e in rest by {
        forall i, e | 1 <= i < |runs| && e in runs[i] ensures e in rest {
          assert e in runs[1..][i - 1];
        }
      }
      m
  }

  lemma {:induction false} MergeAllSorted(runs: seq<seq<Entry>>)
    requires DisjointRuns(runs) && forall i :: 0 <= i < |runs| ==> Sorted(runs[i])
    ensures Sorted(MergeAll(runs))
  {
    if runs != [] {
      MergeAllSorted(runs[1..]);
      forall x, y | x in runs[0] && y in MergeAll(runs[1..]) ensures x.key != y.key {
        var i :| 0 <= i < |runs[1..]| && y in runs[1..][i];
        assert DisjointKeys(runs[0], runs[i + 1]);
      }
      MergeSorted(runs[0], MergeAll(runs[1..]));
    }
  }

  /** A concatenation of runs, as over the files of a sorted level. */
  function Concat(runs: seq<seq<Entry>>): seq<Entry> {
    if runs == [] then [] else runs[0] + Concat(runs[1..])
  }

  lemma {:induction false} InConcat(runs: seq<seq<Entry>>, e: Entry)
    ensures e in Concat(runs) <==> exists i :: 0 <= i < |runs| && e in runs[i]
  {
    if runs != [] {
      InConcat(runs[1..], e);
      if e in Concat(runs[1..]) {
        var i :| 0 <= i < |runs[1..]| && e in runs[1..][i];
        assert e in runs[i + 1];
      }
      if i :| 1 <= i < |runs| && e in runs[i] {
        assert e in runs[1..][i - 1];
      }
    }
  }

  lemma {:induction false} ConcatAppend(runs: seq<seq<Entry>>, last: seq<Entry>)
    ensures Concat(runs + [last]) == Concat(runs) + last
  {
    if runs == [] {
      assert [last][1..] == [];
    } else {
      assert (runs + [last])[1..] == runs[1..] + [last];
      ConcatAppend(runs[1..], last);
    }
  }

  function EntriesOf(files: seq<FileMeta>): (runs: seq<seq<Entry>>)
    ensures |runs| == |files| && forall i :: 0 <= i < |files| ==> runs[i] == files[i].entries
  {
    seq(|files|, i requires 0 <= i < |files| => files[i].entries)
  }

  /** The entries of some files. */
  ghost function EntrySet(files: seq<FileMeta>): set<Entry> {
    set f, e | f in files && e in f.entries :: e
  }

  /** The files of a sorted level, one after another, are one sorted run. */
  lemma {:induction false} ConcatSortedLevel(files: seq<FileMeta>)
    requires ValidFiles(files) && SortedLevel(files)
    ensures Sorted(Concat(EntriesOf(files)))
  {
    if files != [] {
      assert EntriesOf(files)[1..] == EntriesOf(files[1..]);
      ConcatSortedLevel(files[1..]);
      var rest := Concat(EntriesOf(files[1..]));
      forall x, y | x in files[0].entries && y in rest ensures Less(x.key, y.key) {
        InConcat(EntriesOf(files[1..]), y);
        var i :| 0 <= i < |files[1..]| && y in EntriesOf(files[1..])[i];
        EntryInRange(files[0], x);
        EntryInRange(files[i + 1], y);
      }
      TwoSorted(files[0].entries, rest);
    }
  }

  lemma TwoSorted(a: seq<Entry>, b: seq<Entry>)
    requires Sorted(a) && Sorted(b) && forall x, y :: x in a && y in b ==> Less(x.key, y.key)
    ensures Sorted(a + b)
  {
    hide Less;
    var c := a + b;
    forall i, j | 0 <= i < j < |c| ensures Less(c[i].key, c[j].key) {
      if i < |a| <= j {
        assert a[i] in a && b[j - |a|] in b;
      } else if j < |a| {
        assert c[i] == a[i] && c[j] == a[j];
      } else {
        assert c[i] == b[i - |a|] && c[j] == b[j - |a|];
      }
    }
  }
}
