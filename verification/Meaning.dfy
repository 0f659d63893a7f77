/** What a database means: a set of entries, read at a snapshot.

    A read of user key `u` at snapshot `s` is the newest entry of `u` whose sequence
    number is at most `s`; a deletion there, or no entry at all, reads as absent.
    Everything the storage engine does to its entries is judged against this. */
module Meaning {
  import opened InternalKeys

  ghost predicate Visible(e: Entry, u: UserKey, s: nat) {
    e.key.user == u && e.key.sequence <= s
  }

  ghost predicate IsNewest(es: set<Entry>, u: UserKey, s: nat, e: Entry) {
    && e in es
    && Visible(e, u, s)
    && forall x :: x in es && Visible(x, u, s) ==> x.key.sequence <= e.key.sequence
  }

  /** What an entry says about its user key. */
  function Payload(e: Entry): Option<Bytes> {
    if e.key.kind.Value? then Some(e.value) else None
  }

  /** A user key and a sequence number determine the entry. */
  ghost predicate Functional(es: set<Entry>) {
    forall x, y :: x in es && y in es && x.key.user == y.key.user && x.key.sequence == y.key.sequence ==> x == y
  }

  ghost function Read(es: set<Entry>, u: UserKey, s: nat): Option<Bytes> {
    if exists e :: IsNewest(es, u, s, e) then
      Payload(Newest(es, u, s))
    else
      None
  }

  ghost function Newest(es: set<Entry>, u: UserKey, s: nat): (e: Entry)
    requires exists e :: IsNewest(es, u, s, e)
    ensures IsNewest(es, u, s, e)
  {
    var e :| IsNewest(es, u, s, e);
    e
  }

  lemma ReadNewest(es: set<Entry>, u: UserKey, s: nat, e: Entry)
    requires Functional(es)
    requires IsNewest(es, u, s, e)
    ensures Read(es, u, s) == Payload(e)
  {
    assert Newest(es, u, s) == e;
  }

  /** A key with a visible entry has a newest one. */
  lemma {:induction false} NewestExists(es: set<Entry>, u: UserKey, s: nat, w: Entry) returns (e: Entry)
    requires w in es && Visible(w, u, s)
    ensures IsNewest(es, u, s, e)
    decreases s - w.key.sequence
  {
    if exists x :: x in es && Visible(x, u, s) && x.key.sequence > w.key.sequence {
      var x :| x in es && Visible(x, u, s) && x.key.sequence > w.key.sequence;
      e := NewestExists(es, u, s, x);
    } else {
      e := w;
    }
  }

  lemma ReadAbsent(es: set<Entry>, u: UserKey, s: nat)
    requires forall x :: x in es ==> !Visible(x, u, s)
    ensures Read(es, u, s) == None
  {
  }

  /** Two sets that agree on the entries of `u` up to `s` read the same there. */
  lemma ReadAgrees(a: set<Entry>, b: set<Entry>, u: UserKey, s: nat)
    requires Functional(a) && Functional(b)
    requires forall x :: Visible(x, u, s) ==> (x in a <==> x in b)
    ensures Read(a, u, s) == Read(b, u, s)
  {
    if w :| w in a && Visible(w, u, s) {
      var e := NewestExists(a, u, s, w);
      assert IsNewest(b, u, s, e);
      ReadNewest(a, u, s, e);
      ReadNewest(b, u, s, e);
    } else {
      ReadAbsent(a, u, s);
      ReadAbsent(b, u, s);
    }
  }

  // ---------- the drop rules of a compaction, on sets ----------

  /** A newer entry of the same user key, at or below the smallest snapshot, hides `e`. */
  ghost predicate Hidden(inputs: set<Entry>, smallest: nat, e: Entry) {
    exists x :: x in inputs && x.key.user == e.key.user && e.key.sequence < x.key.sequence <= smallest
  }

  /** A deletion at or below the smallest snapshot, of a key with no deeper data. */
  ghost predicate Obsolete(smallest: nat, base: iset<UserKey>, e: Entry) {
    e.key.kind.Deletion? && e.key.sequence <= smallest && e.key.user in base
  }

  ghost predicate Survives(inputs: set<Entry>, smallest: nat, base: iset<UserKey>, e: Entry) {
    e in inputs && !Hidden(inputs, smallest, e) && !Obsolete(smallest, base, e)
  }

  ghost function Survivors(inputs: set<Entry>, smallest: nat, base: iset<UserKey>): (r: set<Entry>)
    ensures r <= inputs
  {
    set e | e in inputs && Survives(inputs, smallest, base, e)
  }

  /** The exposure a compaction can cause: it drops the deletion `d` of a base-level key while,
      outside its inputs, an older value of that key remains and nothing newer covers it. */
  ghost predicate Exposes(inputs: set<Entry>, rest: set<Entry>, smallest: nat, base: iset<UserKey>, d: Entry) {
    && IsNewest(inputs, d.key.user, smallest, d)
    && Obsolete(smallest, base, d)
    && Read(rest, d.key.user, d.key.sequence).Some?
    && forall x :: x in rest && x.key.user == d.key.user ==> !(d.key.sequence < x.key.sequence <= smallest)
  }

  ghost predicate Harmless(inputs: set<Entry>, rest: set<Entry>, smallest: nat, base: iset<UserKey>) {
    forall d :: d in inputs ==> !Exposes(inputs, rest, smallest, base, d)
  }

  ghost predicate SameReads(a: set<Entry>, b: set<Entry>, smallest: nat) {
    forall u: UserKey, s: nat :: smallest <= s ==> Read(a, u, s) == Read(b, u, s)
  }

  lemma FunctionalSubset(a: set<Entry>, b: set<Entry>)
    requires Functional(b) && a <= b
    ensures Functional(a)
  {
  }

  /** Entries above the smallest snapshot are never dropped. */
  lemma AboveSnapshotSurvives(inputs: set<Entry>, smallest: nat, base: iset<UserKey>, e: Entry)
    requires e in inputs && e.key.sequence > smallest
    ensures Survives(inputs, smallest, base, e)
  {
  }

  lemma NewestSurvivesUnlessObsolete(inputs: set<Entry>, smallest: nat, base: iset<UserKey>, u: UserKey, e: Entry)
    requires IsNewest(inputs, u, smallest, e)
    ensures Survives(inputs, smallest, base, e) <==> !Obsolete(smallest, base, e)
  {
    assert Visible(e, u, smallest);
    if x :| x in inputs && x.key.user == e.key.user && e.key.sequence < x.key.sequence <= smallest {
      assert Visible(x, u, smallest);
    }
  }

  /** One key, one snapshot: dropping is invisible unless the dropped deletion was the newest entry. */
  lemma DropInvisible(inputs: set<Entry>, rest: set<Entry>, smallest: nat, base: iset<UserKey>, u: UserKey, s: nat,
                      e: Entry)
    requires Functional(inputs + rest) && smallest <= s
    requires IsNewest(inputs + rest, u, s, e)
    requires e in rest || Survives(inputs, smallest, base, e)
    ensures Read(Survivors(inputs, smallest, base) + rest, u, s) == Read(inputs + rest, u, s)
  {
    var kept := Survivors(inputs, smallest, base);
    FunctionalSubset(kept + rest, inputs + rest);
    assert IsNewest(kept + rest, u, s, e);
    ReadNewest(kept + rest, u, s, e);
    ReadNewest(inputs + rest, u, s, e);
  }

  /** When the newest entry of `u` at `s` is itself dropped, it is an obsolete deletion, the newest
      input entry at the smallest snapshot, and the read falls through to what the rest holds below it. */
  lemma DroppedNewest(inputs: set<Entry>, rest: set<Entry>, smallest: nat, base: iset<UserKey>, u: UserKey, s: nat,
                      e: Entry)
    requires Functional(inputs + rest) && smallest <= s
    requires IsNewest(inputs + rest, u, s, e)
    requires e !in rest && !Survives(inputs, smallest, base, e)
    ensures e in inputs && IsNewest(inputs, u, smallest, e) && Obsolete(smallest, base, e)
    ensures Read(inputs + rest, u, s) == None
    ensures Read(Survivors(inputs, smallest, base) + rest, u, s) == Read(rest, u, e.key.sequence)
    ensures forall x :: x in rest && x.key.user == u ==> !(e.key.sequence < x.key.sequence <= s)
  {
    var kept := Survivors(inputs, smallest, base);
    assert e in inputs;
    if e.key.sequence > smallest {
      AboveSnapshotSurvives(inputs, smallest, base, e);
      assert false;
    }
    assert IsNewest(inputs, u, smallest, e) by {
      forall x | x in inputs && Visible(x, u, smallest) ensures x.key.sequence <= e.key.sequence {
        assert Visible(x, u, s) && x in inputs + rest;
      }
    }
    NewestSurvivesUnlessObsolete(inputs, smallest, base, u, e);
    ReadNewest(inputs + rest, u, s, e);
    forall x | x in rest && x.key.user == u ensures !(e.key.sequence < x.key.sequence <= s) {
      if e.key.sequence < x.key.sequence <= s { assert Visible(x, u, s) && x in inputs + rest; }
    }
    FunctionalSubset(kept + rest, inputs + rest);
    FunctionalSubset(rest, inputs + rest);
    if w :| w in rest && Visible(w, u, e.key.sequence) {
      var n := NewestExists(rest, u, e.key.sequence, w);
      NothingKeptBelow(inputs, smallest, base, u, s, e);
      assert IsNewest(kept + rest, u, s, n) by {
        forall x | x in kept + rest && Visible(x, u, s) ensures x.key.sequence <= n.key.sequence {
          assert x in inputs + rest;
          if x in kept { assert false; }
          assert Visible(x, u, e.key.sequence);
        }
      }
      ReadNewest(kept + rest, u, s, n);
      ReadNewest(rest, u, e.key.sequence, n);
    } else {
      NothingKeptBelow(inputs, smallest, base, u, s, e);
      forall x | x in kept + rest ensures !Visible(x, u, s) {
        if x in rest { assert !Visible(x, u, e.key.sequence); }
      }
      ReadAbsent(kept + rest, u, s);
      ReadAbsent(rest, u, e.key.sequence);
    }
  }

  /** Below a dropped newest deletion no input entry of its key survives. */
  lemma NothingKeptBelow(inputs: set<Entry>, smallest: nat, base: iset<UserKey>, u: UserKey, s: nat, e: Entry)
    requires Functional(inputs)
    requires e in inputs && e.key.user == u && Obsolete(smallest, base, e)
    requires forall x :: x in inputs && Visible(x, u, s) ==> x.key.sequence <= e.key.sequence
    ensures forall x :: x in Survivors(inputs, smallest, base) ==> !Visible(x, u, s)
  {
    forall x | x in Survivors(inputs, smallest, base) ensures !Visible(x, u, s) {
      assert x.key.user == u && x.key.sequence == e.key.sequence ==> x == e;
      assert x.key.user == u && x.key.sequence < e.key.sequence ==> Hidden(inputs, smallest, x);
    }
  }

  /** Compaction meaning, exactly: replacing the inputs by their survivors keeps every read at every
      snapshot from the smallest one up if and only if no dropped deletion exposes an older value. */
  lemma DropRulesKeepReadsIff(inputs: set<Entry>, rest: set<Entry>, smallest: nat, base: iset<UserKey>)
    requires Functional(inputs + rest)
    ensures SameReads(inputs + rest, Survivors(inputs, smallest, base) + rest, smallest)
       <==> Harmless(inputs, rest, smallest, base)
  {
    if Harmless(inputs, rest, smallest, base) {
      forall u: UserKey, s: nat | smallest <= s
        ensures Read(inputs + rest, u, s) == Read(Survivors(inputs, smallest, base) + rest, u, s)
      {
        HarmlessKeepsRead(inputs, rest, smallest, base, u, s);
      }
    } else {
      var d :| d in inputs && Exposes(inputs, rest, smallest, base, d);
      ExposureChangesRead(inputs, rest, smallest, base, d);
    }
  }

  lemma HarmlessKeepsRead(inputs: set<Entry>, rest: set<Entry>, smallest: nat, base: iset<UserKey>, u: UserKey, s: nat)
    requires Functional(inputs + rest) && smallest <= s
    requires Harmless(inputs, rest, smallest, base)
    ensures Read(inputs + rest, u, s) == Read(Survivors(inputs, smallest, base) + rest, u, s)
  {
    if w :| w in inputs + rest && Visible(w, u, s) {
      var e := NewestExists(inputs + rest, u, s, w);
      if e in rest || Survives(inputs, smallest, base, e) {
        DropInvisible(inputs, rest, smallest, base, u, s, e);
      } else {
        DroppedNewest(inputs, rest, smallest, base, u, s, e);
        assert !Exposes(inputs, rest, smallest, base, e);
      }
    } else {
      ReadAbsent(inputs + rest, u, s);
      ReadAbsent(Survivors(inputs, smallest, base) + rest, u, s);
    }
  }

  lemma ExposureChangesRead(inputs: set<Entry>, rest: set<Entry>, smallest: nat, base: iset<UserKey>, d: Entry)
    requires Functional(inputs + rest)
    requires d in inputs && Exposes(inputs, rest, smallest, base, d)
    ensures Read(inputs + rest, d.key.user, smallest) == None
    ensures Read(Survivors(inputs, smallest, base) + rest, d.key.user, smallest).Some?
  {
    var u := d.key.user;
    assert d !in rest by {
      if d in rest {
        FunctionalSubset(rest, inputs + rest);
        assert IsNewest(rest, u, d.key.sequence, d);
        ReadNewest(rest, u, d.key.sequence, d);
      }
    }
    assert IsNewest(inputs + rest, u, smallest, d) by {
      assert Visible(d, u, smallest);
    }
    NewestSurvivesUnlessObsolete(inputs, smallest, base, u, d);
    DroppedNewest(inputs, rest, smallest, base, u, smallest, d);
  }

  // ---------- the reference: the history of writes ----------

  datatype Op = Put(user: UserKey, value: Bytes) | Delete(user: UserKey)

  /** The reference read: the last of the first `s` operations on `u` decides. */
  function SpecRead(history: seq<Op>, u: UserKey, s: nat): Option<Bytes>
    requires s <= |history|
  {
    if s == 0 then None
    else if history[s - 1].user == u then
      (match history[s - 1] case Put(_, v) => Some(v) case Delete(_) => None)
    else SpecRead(history, u, s - 1)
  }

  /** The entry that operation number `n` (from 1) becomes. */
  function EntryOf(op: Op, n: nat): Entry {
    match op
    case Put(u, v) => Entry(InternalKey(u, n, Value), v)
    case Delete(u) => Entry(InternalKey(u, n, Deletion), [])
  }

  lemma {:induction false} SpecReadPrefix(history: seq<Op>, more: seq<Op>, u: UserKey, s: nat)
    requires s <= |history|
    ensures SpecRead(history + more, u, s) == SpecRead(history, u, s)
  {
    if s > 0 {
      assert (history + more)[s - 1] == history[s - 1];
      SpecReadPrefix(history, more, u, s - 1);
    }
  }
}
