/** Write batches: a list of updates as the bytes of one log record (db/write_batch.cc). */
module WriteBatches {
  import opened InternalKeys
  import opened Masking
  import opened Coding
  import opened LogFormat
  import opened LogReading

  const BATCH_HEADER: nat := 12

  datatype Update = Put(key: Bytes, value: Bytes) | Delete(key: Bytes)

  predicate UpdateOk(u: Update) {
    |u.key| < TWO32 && (u.Put? ==> |u.value| < TWO32)
  }

  /** A type byte, the key, and the value of a put. */
  function UpdateBytes(u: Update): Bytes {
    match u
    case Put(key, value) => [1] + (PutSlice(key) + PutSlice(value))
    case Delete(key) => [0] + PutSlice(key)
  }

  function Body(us: seq<Update>): Bytes {
    if us == [] then [] else UpdateBytes(us[0]) + Body(us[1..])
  }

  /** Sequence number of the first update, number of updates, the updates. */
  function BatchBytes(sequence: nat, us: seq<Update>): Bytes {
    Fixed64(sequence) + Fixed32(|us|) + Body(us)
  }

  lemma {:induction false} BodyAppend(a: seq<Update>, b: seq<Update>)
    ensures Body(a + b) == Body(a) + Body(b)
  {
    if a == [] {
      assert a + b == b;
    } else {
      assert (a + b)[1..] == a[1..] + b;
      BodyAppend(a[1..], b);
    }
  }

  // ---------- reading ----------

  datatype Taken = Taken(update: Update, rest: Bytes)

  /** One update; nothing if its type is unknown or its strings are cut off. */
  function Take(s: Bytes): (r: Option<Taken>)
    requires s != []
    ensures r.Some? ==> |r.value.rest| < |s|
  {
    if s[0] > 1 then None
    else
      var key := GetSlice(s[1..]);
      if key.None? then None
      else if s[0] == 0 then Some(Taken(Delete(key.value.value), key.value.rest))
      else
        var value := GetSlice(key.value.rest);
        if value.None? then None else Some(Taken(Put(key.value.value, value.value.value), value.value.rest))
  }

  /** The updates handed out one by one, and whether the end was reached in order. */
  function Walk(s: Bytes): (seq<Update>, bool)
    decreases |s|
  {
    if s == [] then ([], true)
    else
      var u := Take(s);
      if u.None? then ([], false)
      else
        var (us, ok) := Walk(u.value.rest);
        ([u.value.update] + us, ok)
  }

  function Count(rep: Bytes): nat
    requires |rep| >= BATCH_HEADER
  {
    DecodeFixed32(rep[8..])
  }

  function Sequence(rep: Bytes): nat
    requires |rep| >= BATCH_HEADER
  {
    DecodeFixed64(rep)
  }

  /** What `Iterate` hands out, and whether it ends without an error. */
  function Iterated(rep: Bytes): (seq<Update>, bool) {
    if |rep| < BATCH_HEADER then ([], false)
    else
      var (us, ok) := Walk(rep[BATCH_HEADER..]);
      (us, ok && |us| == Count(rep))
  }

  lemma TakeReads(u: Update, rest: Bytes)
    requires UpdateOk(u)
    ensures UpdateBytes(u) + rest != [] && Take(UpdateBytes(u) + rest) == Some(Taken(u, rest))
  {
    hide PutSlice, GetSlice;
    var s := UpdateBytes(u) + rest;
    if u.Put? {
      assert s[1..] == PutSlice(u.key) + (PutSlice(u.value) + rest);
      SliceRoundTrip(u.key, PutSlice(u.value) + rest);
      SliceRoundTrip(u.value, rest);
    } else {
      assert s[1..] == PutSlice(u.key) + rest;
      SliceRoundTrip(u.key, rest);
    }
  }

  lemma {:induction false} WalkReads(us: seq<Update>)
    requires forall u :: u in us ==> UpdateOk(u)
    ensures Walk(Body(us)) == (us, true)
  {
    hide UpdateBytes, Take, UpdateOk;
    if us != [] {
      TakeReads(us[0], Body(us[1..]));
      WalkReads(us[1..]);
      assert us == [us[0]] + us[1..];
    }
  }

  lemma BatchParts(sequence: nat, us: seq<Update>)
    requires sequence < TWO64
    ensures var rep := BatchBytes(sequence, us);
            && |rep| >= BATCH_HEADER && rep[BATCH_HEADER..] == Body(us) && Sequence(rep) == sequence
            && (|us| < TWO32 ==> Count(rep) == |us|)
  {
    hide Fixed32, DecodeFixed32, Fixed64, DecodeFixed64, Body;
    var rep := BatchBytes(sequence, us);
    assert rep == Fixed64(sequence) + (Fixed32(|us|) + Body(us));
    Fixed64Front(sequence, Fixed32(|us|) + Body(us));
    assert rep[8..] == Fixed32(|us|) + Body(us);
    if |us| < TWO32 {
      FixedFront(|us|, Body(us));
    }
  }

  /** A batch read back hands out its updates in order, without an error. */
  lemma BatchReads(sequence: nat, us: seq<Update>)
    requires sequence < TWO64 && |us| < TWO32 && forall u :: u in us ==> UpdateOk(u)
    ensures Iterated(BatchBytes(sequence, us)) == (us, true)
  {
    hide BatchBytes, Walk, Body, UpdateOk;
    BatchParts(sequence, us);
    WalkReads(us);
  }

  // ---------- what is refused ----------

  lemma TakeAhead(s: Bytes, t: Bytes)
    requires s != [] && Take(s).Some?
    ensures Take(s + t) == Some(Taken(Take(s).value.update, Take(s).value.rest + t))
  {
    hide GetSlice;
    assert (s + t)[0] == s[0] && (s + t)[1..] == s[1..] + t;
    GetSliceAhead(s[1..], t);
    if s[0] == 1 {
      GetSliceAhead(GetSlice(s[1..]).value.rest, t);
    }
  }

  /** Of updates that are cut off somewhere fewer are handed out, or there is an error. */
  lemma {:induction false} WalkCut(us: seq<Update>, j: nat)
    requires j < |Body(us)| && forall u :: u in us ==> UpdateOk(u)
    ensures Walk(Body(us)[..j]).1 ==> |Walk(Body(us)[..j]).0| < |us|
    decreases |us|
  {
    hide UpdateBytes, Take, UpdateOk;
    var first, more := UpdateBytes(us[0]), Body(us[1..]);
    TakeReads(us[0], []);
    assert first + [] == first;
    if 0 < j < |first| {
      var cut := first[..j];
      assert Body(us)[..j] == cut && cut + first[j..] == first;
      if Take(cut).Some? {
        TakeAhead(cut, first[j..]);
        assert false;
      }
    } else if j >= |first| {
      TakeReads(us[0], more[..j - |first|]);
      assert Body(us)[..j] == first + more[..j - |first|];
      WalkCut(us[1..], j - |first|);
    }
  }

  /** A batch of which some bytes are missing is refused. */
  lemma CutBatchFails(sequence: nat, us: seq<Update>, k: nat)
    requires sequence < TWO64 && |us| < TWO32 && forall u :: u in us ==> UpdateOk(u)
    requires k < |BatchBytes(sequence, us)|
    ensures !Iterated(BatchBytes(sequence, us)[..k]).1
  {
    hide Walk, Body, UpdateOk, DecodeFixed32;
    var rep := BatchBytes(sequence, us);
    BatchParts(sequence, us);
    if k >= BATCH_HEADER {
      assert rep[..k][BATCH_HEADER..] == Body(us)[..k - BATCH_HEADER];
      SameCount(rep, k);
      WalkCut(us, k - BATCH_HEADER);
    }
  }

  lemma SameCount(rep: Bytes, k: nat)
    requires BATCH_HEADER <= k <= |rep|
    ensures Count(rep[..k]) == Count(rep)
  {
  }

  /** So is one whose count is not the number of its updates, after they have been handed out. */
  lemma WrongCountFails(sequence: nat, us: seq<Update>, n: nat)
    requires sequence < TWO64 && n < TWO32 && n != |us| && forall u :: u in us ==> UpdateOk(u)
    ensures Iterated(Fixed64(sequence) + Fixed32(n) + Body(us)) == (us, false)
  {
    hide Fixed32, DecodeFixed32, Fixed64, Body, Walk, UpdateOk;
    var rep := Fixed64(sequence) + Fixed32(n) + Body(us);
    assert rep[8..] == Fixed32(n) + Body(us) && rep[BATCH_HEADER..] == Body(us);
    FixedFront(n, Body(us));
    WalkReads(us);
  }

  // ---------- the class ----------

  class WriteBatch {
    var rep: Bytes
    ghost var sequence: nat
    ghost var updates: seq<Update>

    ghost predicate Valid()
      reads this
    {
      rep == BatchBytes(sequence, updates) && sequence < TWO64
    }

    constructor ()
      ensures Valid() && updates == [] && sequence == 0
    {
      rep := seq(BATCH_HEADER, _ => 0);
      sequence, updates := 0, [];
    }

    /** Overwrites the count. */
    method SetCount(n: nat)
      requires |rep| >= BATCH_HEADER
      modifies this`rep
      ensures rep == old(rep)[..8] + Fixed32(n) + old(rep)[BATCH_HEADER..]
    {
      rep := rep[..8] + Fixed32(n) + rep[BATCH_HEADER..];
    }

    method SetSequence(s: nat)
      requires Valid() && s < TWO64
      modifies this
      ensures Valid() && sequence == s && updates == old(updates)
    {
      hide Fixed32, Fixed64, Body;
      BatchParts(sequence, updates);
      assert rep[8..] == Fixed32(|updates|) + Body(updates);
      rep := Fixed64(s) + rep[8..];
      sequence := s;
      assert rep == BatchBytes(s, updates);
    }

    /** Adds a record behind the others. */
    method AddRecord(ghost u: Update, bytes: Bytes)
      requires Valid() && bytes == UpdateBytes(u) && |updates| + 1 < TWO32
      modifies this
      ensures Valid() && sequence == old(sequence) && updates == old(updates) + [u]
    {
      hide Fixed32, DecodeFixed32, Fixed64, UpdateBytes, Body;
      BatchParts(sequence, updates);
      SetCount(Count(rep) + 1);
      rep := rep + bytes;
      BodyAppend(updates, [u]);
      OneBody(u);
      updates := updates + [u];
      assert rep == BatchBytes(sequence, updates);
    }

    method Put(key: Bytes, value: Bytes)
      requires Valid() && |updates| + 1 < TWO32
      modifies this
      ensures Valid() && sequence == old(sequence) && updates == old(updates) + [Update.Put(key, value)]
    {
      AddRecord(Update.Put(key, value), [1] + (PutSlice(key) + PutSlice(value)));
    }

    method Delete(key: Bytes)
      requires Valid() && |updates| + 1 < TWO32
      modifies this
      ensures Valid() && sequence == old(sequence) && updates == old(updates) + [Update.Delete(key)]
    {
      AddRecord(Update.Delete(key), [0] + PutSlice(key));
    }

    /** Adds all updates of another batch, as a leader does for its group. */
    method Append(source: WriteBatch)
      requires Valid() && source.Valid() && source != this && |updates| + |source.updates| < TWO32
      modifies this
      ensures Valid() && sequence == old(sequence) && updates == old(updates) + source.updates
    {
      hide Fixed32, DecodeFixed32, Fixed64, Body;
      BatchParts(sequence, updates);
      BatchParts(source.sequence, source.updates);
      SetCount(Count(rep) + Count(source.rep));
      rep := rep + source.rep[BATCH_HEADER..];
      BodyAppend(updates, source.updates);
      updates := updates + source.updates;
      assert rep == BatchBytes(sequence, updates);
    }

    /** `Iterate`: hands out the updates until one is broken; the count must be right at the end. */
    method Iterate() returns (us: seq<Update>, ok: bool)
      ensures (us, ok) == Iterated(rep)
      ensures Valid() && |updates| < TWO32 && (forall u :: u in updates ==> UpdateOk(u)) ==> ok && us == updates
    {
      hide Take, UpdateOk, BatchBytes;
      if Valid() && |updates| < TWO32 && forall u :: u in updates ==> UpdateOk(u) {
        BatchReads(sequence, updates);
      }
      us := [];
      if |rep| < BATCH_HEADER {
        return [], false;
      }
      var input := rep[BATCH_HEADER..];
      assert us + Walk(input).0 == Walk(input).0;
      while input != []
        invariant (us + Walk(input).0, Walk(input).1) == Walk(rep[BATCH_HEADER..])
        decreases |input|
      {
        var u := Take(input);
        if u.None? {
          assert us + [] == us;
          return us, false;
        }
        ghost var tail := Walk(u.value.rest).0;
        assert us + ([u.value.update] + tail) == us + [u.value.update] + tail;
        us, input := us + [u.value.update], u.value.rest;
      }
      assert us + [] == us;
      ok := |us| == Count(rep);
    }

    /** `InsertInto`: the updates with consecutive sequence numbers from that of the batch on. */
    method InsertInto() returns (adds: seq<(nat, Update)>, ok: bool)
      requires |rep| >= BATCH_HEADER
      ensures ok == Iterated(rep).1 && |adds| == |Iterated(rep).0|
      ensures forall i :: 0 <= i < |adds| ==> adds[i] == (Sequence(rep) + i, Iterated(rep).0[i])
    {
      hide Iterated;
      var us;
      us, ok := Iterate();
      adds := [];
      for i := 0 to |us|
        invariant |adds| == i && forall j :: 0 <= j < i ==> adds[j] == (Sequence(rep) + j, us[j])
      {
        adds := adds + [(Sequence(rep) + i, us[i])];
      }
    }
  }

  lemma OneBody(u: Update)
    ensures Body([u]) == UpdateBytes(u)
  {
    assert [u][1..] == [];
    assert UpdateBytes(u) + [] == UpdateBytes(u);
  }

  // ---------- batches in a log ----------

  datatype Batch = Batch(sequence: nat, updates: seq<Update>)

  predicate BatchOk(b: Batch) {
    b.sequence < TWO64 && |b.updates| < TWO32 && forall u :: u in b.updates ==> UpdateOk(u)
  }

  function Records(bs: seq<Batch>): (rs: seq<Bytes>)
    ensures |rs| == |bs| && forall i :: 0 <= i < |bs| ==> rs[i] == BatchBytes(bs[i].sequence, bs[i].updates)
  {
    seq(|bs|, i requires 0 <= i < |bs| => BatchBytes(bs[i].sequence, bs[i].updates))
  }

  /** From a log of batches cut off after any number of bytes, a recovering database gets exactly the batches wholly in
      front of the cut, each with its sequence number and all of its updates; no part of a batch, and no report. */
  lemma CrashKeepsWholeBatches(bs: seq<Batch>, k: nat)
    requires (forall b :: b in bs ==> BatchOk(b)) && k <= |LogBytes(Records(bs))|
    ensures var (rs, d) := AllRecords(Cursor([], LogBytes(Records(bs))[..k], false, 0));
            && d.reports == 0 && |rs| <= |bs|
            && (forall i :: 0 <= i <= |bs| ==> (i <= |rs| <==> |LogBytes(Records(bs[..i]))| <= k))
            && forall i :: 0 <= i < |rs| ==>
                 |rs[i]| >= BATCH_HEADER && Sequence(rs[i]) == bs[i].sequence
                   && Iterated(rs[i]) == (bs[i].updates, true)
  {
    hide AllRecords, LogBytes, BatchBytes, Iterated, Sequence;
    var records := Records(bs);
    TruncatedLog(records, k);
    var rs := AllRecords(Cursor([], LogBytes(records)[..k], false, 0)).0;
    forall i | 0 <= i <= |bs| ensures Records(bs[..i]) == records[..i] {
    }
    forall i | 0 <= i < |rs|
      ensures |rs[i]| >= BATCH_HEADER && Sequence(rs[i]) == bs[i].sequence && Iterated(rs[i]) == (bs[i].updates, true)
    {
      assert rs[i] == records[i] && bs[i] in bs;
      BatchParts(bs[i].sequence, bs[i].updates);
      BatchReads(bs[i].sequence, bs[i].updates);
    }
  }
}
