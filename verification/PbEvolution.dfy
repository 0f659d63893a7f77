/** Messages between programs that do not know the same members: the reader skips what it does not know, and keeps its
    defaults for what was not written (nanopb/pb_decode.c). */
module PbEvolution {
  import opened InternalKeys
  import opened Masking
  import opened Coding
  import opened PbWire
  import opened PbMessages
  import opened PbEncoding
  import opened PbDecoding
  import opened PbRoundTrip
  import opened PbScanning

  // ---------- some of the members ----------

  ghost predicate Indices(at: seq<nat>, n: nat) {
    && (forall j :: 0 <= j < |at| ==> at[j] < n)
    && (forall i, j :: 0 <= i < j < |at| ==> at[i] < at[j])
  }

  /** The members, or the slots, with these indices. */
  function Chosen<T>(xs: seq<T>, at: seq<nat>): (r: seq<T>)
    requires forall j :: 0 <= j < |at| ==> at[j] < |xs|
    ensures |r| == |at| && forall j :: 0 <= j < |at| ==> r[j] == xs[at[j]]
  {
    seq(|at|, j requires 0 <= j < |at| => xs[at[j]])
  }

  lemma ChosenOk(ms: seq<Member>, ss: seq<Slot>, at: seq<nat>)
    requires SchemaOk(ms) && TypedAll(ms, ss) && Indices(at, |ms|)
    ensures SchemaOk(Chosen(ms, at)) && TypedAll(Chosen(ms, at), Chosen(ss, at))
  {
    hide MemberOk, TypedSlot, HasTag;
    var some := Chosen(ms, at);
    forall i, j, x | 0 <= i < j < |some| && HasTag(some[i], x) ensures !HasTag(some[j], x) {
      assert HasTag(ms[at[i]], x);
    }
  }

  /** What the reader's struct should hold: what was written, and the defaults of what was not. */
  function Expected(ms: seq<Member>, ss: seq<Slot>, a: seq<nat>, b: seq<nat>): (r: seq<Slot>)
    requires |ss| == |ms| && forall j :: 0 <= j < |b| ==> b[j] < |ms|
    ensures |r| == |b|
    ensures forall j :: 0 <= j < |b| ==> r[j] == if b[j] in a then ss[b[j]] else DefaultSlot(ms[b[j]])
  {
    seq(|b|, j requires 0 <= j < |b| => if b[j] in a then ss[b[j]] else DefaultSlot(ms[b[j]]))
  }

  lemma ExpectedTyped(ms: seq<Member>, ss: seq<Slot>, a: seq<nat>, b: seq<nat>)
    requires SchemaOk(ms) && TypedAll(ms, ss) && Indices(b, |ms|)
    ensures TypedAll(Chosen(ms, b), Expected(ms, ss, a, b))
  {
    hide MemberOk, TypedSlot, HasTag, DefaultSlot;
    forall j | 0 <= j < |b| ensures TypedSlot(ms[b[j]], Expected(ms, ss, a, b)[j]) {
      MemberFacts(ms, b[j]);
      DefaultSlotTyped(ms[b[j]]);
    }
  }

  /** The numbers of the reader's required members that were not written. */
  ghost function Lost(ms: seq<Member>, a: seq<nat>, b: seq<nat>): set<nat>
    requires forall j :: 0 <= j < |b| ==> b[j] < |ms|
  {
    set j | 0 <= j < |b| && ms[b[j]].Required? && b[j] !in a :: RequiredBefore(Chosen(ms, b), j)
  }

  /** The texts in shared members leave room for their terminators. */
  ghost predicate SharedTerminated(ms: seq<Member>, ss: seq<Slot>, a: seq<nat>, b: seq<nat>, y: nat)
    requires TypedAll(ms, ss) && forall j :: 0 <= j < |b| ==> b[j] < |ms|
  {
    forall j :: y <= j < |b| && b[j] in a ==> SlotTerminated(ms[b[j]], ss[b[j]])
  }

  // ---------- unknown fields ----------

  ghost predicate NoMember(ms: seq<Member>, tag: nat) {
    forall i :: 0 <= i < |ms| ==> !HasTag(ms[i], tag)
  }

  lemma UnknownTagged(ms: seq<Member>, p: Progress, tag: nat, wireType: nat, body: Bytes, rest: Bytes)
    requires SchemaOk(ms) && TypedAll(ms, p.slots) && TagOk(tag) && wireType < 8 && NoMember(ms, tag)
    requires Skip(wireType, body + rest) == Some(rest)
    ensures DecodeLoop(ms, p, TagBytes(tag, wireType) + (body + rest)) == DecodeLoop(ms, p, rest)
  {
    hide TagBytes, Varint32, HasTag, MemberOk, TypedSlot, MemberIndex, SchemaOk, TypedAll, Skip, DecodeSlot;
    TagReads(tag, wireType, body + rest);
    NoIndex(ms, tag);
  }

  lemma NoIndex(ms: seq<Member>, tag: nat)
    requires NoMember(ms, tag)
    ensures MemberIndex(ms, tag, 0) == |ms|
  {
    hide HasTag;
  }

  lemma UnknownValue(ms: seq<Member>, p: Progress, tag: nat, k: Kind, v: Value, rest: Bytes)
    requires SchemaOk(ms) && TypedAll(ms, p.slots) && TagOk(tag) && NoMember(ms, tag)
    requires Typed(k, v) && EncodeTagged(tag, k, v).Some? && |EncodeTagged(tag, k, v).value| < TWO32
    ensures DecodeLoop(ms, p, EncodeTagged(tag, k, v).value + rest) == DecodeLoop(ms, p, rest)
  {
    hide TagBytes, SchemaOk, TypedAll, Skip, DecodeLoop, EncodeValue, Typed, NoMember;
    var t, body := TagBytes(tag, WireType(k)), EncodeValue(k, v).value;
    ValueSkips(k, v, rest);
    assert t + body + rest == t + (body + rest);
    UnknownTagged(ms, p, tag, WireType(k), body, rest);
  }

  lemma {:induction false} UnknownItems(ms: seq<Member>, p: Progress, tag: nat, k: Kind, vs: seq<Value>, i: nat,
                                        rest: Bytes)
    requires SchemaOk(ms) && TypedAll(ms, p.slots) && TagOk(tag) && NoMember(ms, tag)
    requires TypedItems(k, vs) && i <= |vs|
    requires EncodeEach(tag, k, vs, i).Some? && |EncodeEach(tag, k, vs, i).value| < TWO32
    ensures DecodeLoop(ms, p, EncodeEach(tag, k, vs, i).value + rest) == DecodeLoop(ms, p, rest)
    decreases |vs| - i
  {
    hide SchemaOk, TypedAll, DecodeLoop, EncodeTagged, Typed, NoMember;
    if i == |vs| {
      assert [] + rest == rest;
    } else {
      var first, more := EncodeTagged(tag, k, vs[i]).value, EncodeEach(tag, k, vs, i + 1).value;
      assert first + more + rest == first + (more + rest);
      UnknownValue(ms, p, tag, k, vs[i], more + rest);
      UnknownItems(ms, p, tag, k, vs, i + 1, rest);
    }
  }

  lemma UnknownPacked(ms: seq<Member>, p: Progress, tag: nat, items: Bytes, rest: Bytes)
    requires SchemaOk(ms) && TypedAll(ms, p.slots) && TagOk(tag) && NoMember(ms, tag) && |items| < TWO32
    ensures DecodeLoop(ms, p, TagBytes(tag, 2) + PutSlice(items) + rest) == DecodeLoop(ms, p, rest)
  {
    hide TagBytes, PutSlice, SchemaOk, TypedAll, DecodeLoop, Skip, NoMember;
    SliceSkips(items, rest);
    assert TagBytes(tag, 2) + PutSlice(items) + rest == TagBytes(tag, 2) + (PutSlice(items) + rest);
    UnknownTagged(ms, p, tag, 2, PutSlice(items), rest);
  }

  /** All the fields of a member that the reader does not know are passed over. */
  lemma UnknownMember(ms: seq<Member>, p: Progress, m: Member, s: Slot, rest: Bytes)
    requires SchemaOk(ms) && TypedAll(ms, p.slots) && forall tag :: HasTag(m, tag) ==> NoMember(ms, tag)
    requires MemberOk(m) && TypedSlot(m, s) && EncodeSlot(m, s).Some? && |EncodeSlot(m, s).value| < TWO32
    ensures DecodeLoop(ms, p, EncodeSlot(m, s).value + rest) == DecodeLoop(ms, p, rest)
  {
    hide SchemaOk, TypedAll, DecodeLoop, EncodeTagged, EncodeEach, EncodeItems, EncodeOptions, Typed, IsZero, NoMember;
    hide TagBytes, PutSlice, KindOk;
    assert [] + rest == rest;
    match m
    case Required(tag, k, _) => assert HasTag(m, tag); UnknownValue(ms, p, tag, k, s.v, rest);
    case Optional(tag, k, _) => assert HasTag(m, tag); if s.has { UnknownValue(ms, p, tag, k, s.v, rest); }
    case Singular(tag, k) => assert HasTag(m, tag); if !IsZero(k, s.v) { UnknownValue(ms, p, tag, k, s.v, rest); }
    case Repeated(tag, k, _) =>
      assert HasTag(m, tag);
      if s.items != [] {
        if Packable(k) {
          SliceSize(EncodeItems(k, s.items, 0).value);
          UnknownPacked(ms, p, tag, EncodeItems(k, s.items, 0).value, rest);
        } else {
          UnknownItems(ms, p, tag, k, s.items, 0, rest);
        }
      }
    case OneOf(os) =>
      OptionWritten(os, s.which, s.v, 0);
      var j := OptionIndex(os, s.which, 0);
      if j < |os| {
        assert HasTag(m, os[j].tag);
        UnknownValue(ms, p, os[j].tag, os[j].kind, s.v, rest);
      }
  }

  // ---------- both messages at once ----------

  /** The decoder is at member `y` of the reader, with member `x` of the writer ahead: those before agree. */
  ghost predicate SideBySide(a: seq<nat>, b: seq<nat>, x: nat, y: nat) {
    && x <= |a| && y <= |b|
    && (x < |a| ==> forall j :: 0 <= j < y ==> b[j] < a[x])
    && (y < |b| ==> forall i :: 0 <= i < x ==> a[i] < b[y])
  }

  lemma NextSide(a: seq<nat>, b: seq<nat>, x: nat, y: nat, n: nat)
    requires Indices(a, n) && Indices(b, n) && SideBySide(a, b, x, y)
    ensures x < |a| && (y == |b| || a[x] < b[y]) ==> SideBySide(a, b, x + 1, y) && a[x] !in b
    ensures y < |b| && (x == |a| || b[y] < a[x]) ==> SideBySide(a, b, x, y + 1) && b[y] !in a
    ensures x < |a| && y < |b| && a[x] == b[y] ==> SideBySide(a, b, x + 1, y + 1)
  {
  }

  lemma NotShared(ms: seq<Member>, b: seq<nat>, i: nat)
    requires SchemaOk(ms) && Indices(b, |ms|) && i < |ms| && i !in b
    ensures forall tag :: HasTag(ms[i], tag) ==> NoMember(Chosen(ms, b), tag)
  {
    hide MemberOk, HasTag;
    forall tag | HasTag(ms[i], tag) ensures NoMember(Chosen(ms, b), tag) {
      forall j | 0 <= j < |b| ensures !HasTag(ms[b[j]], tag) {
        assert b[j] in b;
      }
    }
  }

  lemma {:induction false} RequiredGrows(ms: seq<Member>, i: nat, n: nat)
    requires i <= n <= |ms|
    ensures RequiredBefore(ms, i) <= RequiredBefore(ms, n)
    ensures i < n && ms[i].Required? ==> RequiredBefore(ms, i) < RequiredBefore(ms, n)
    decreases n - i
  {
    if i < n {
      RequiredGrows(ms, i, n - 1);
    }
  }

  /** A required member that was written has a number of its own. */
  lemma WrittenNotLost(ms: seq<Member>, a: seq<nat>, b: seq<nat>, y: nat)
    requires Indices(b, |ms|) && y < |b| && b[y] in a
    ensures NotLost(Chosen(ms, b), y, Lost(ms, a, b))
  {
    hide RequiredBefore;
    var rs := Chosen(ms, b);
    if rs[y].Required? && RequiredBefore(rs, y) in Lost(ms, a, b) {
      var j :| 0 <= j < |b| && ms[b[j]].Required? && b[j] !in a && RequiredBefore(rs, j) == RequiredBefore(rs, y);
      RequiredGrows(rs, if j < y then j else y, if j < y then y else j);
    }
  }

  lemma {:induction false} SameItself(k: Kind, v: Value)
    requires Typed(k, v)
    ensures Same(k, v, v)
    decreases k, 0
  {
    if k.Sub? {
      forall i | 0 <= i < |k.members| ensures SameSlot(k.members[i], v.slots[i], v.slots[i]) {
        SlotSameItself(k.members[i], v.slots[i]);
      }
    }
  }

  lemma {:induction false} SlotSameItself(m: Member, s: Slot)
    requires TypedSlot(m, s)
    ensures SameSlot(m, s, s)
    decreases m, 0
  {
    match m
    case Required(_, k, _) => SameItself(k, s.v);
    case Optional(_, k, _) => SameItself(k, s.v);
    case Singular(_, k) => SameItself(k, s.v);
    case Repeated(_, k, _) =>
      forall i | 0 <= i < |s.items| ensures Same(k, s.items[i], s.items[i]) {
        SameItself(k, s.items[i]);
      }
    case OneOf(os) =>
      forall j | 0 <= j < |os| && os[j].tag == s.which ensures Same(os[j].kind, s.v, s.v) {
        SameItself(os[j].kind, s.v);
      }
  }

  /** From member `x` of the writer and member `y` of the reader on. */
  ghost predicate Reads(ms: seq<Member>, ss: seq<Slot>, a: seq<nat>, b: seq<nat>, x: nat, y: nat, p: Progress)
    requires SchemaOk(ms) && TypedAll(ms, ss) && Indices(a, |ms|) && Indices(b, |ms|)
    requires SchemaOk(Chosen(ms, b)) && TypedAll(Chosen(ms, a), Chosen(ss, a)) && TypedAll(Chosen(ms, b), p.slots)
    requires EncodeFrom(Chosen(ms, a), Chosen(ss, a), x).Some?
  {
    var r := DecodeLoop(Chosen(ms, b), p, EncodeFrom(Chosen(ms, a), Chosen(ss, a), x).value);
    if SharedTerminated(ms, ss, a, b, y)
    then r.Some? && Filled(Chosen(ms, b), Expected(ms, ss, a, b), Lost(ms, a, b), |b|, r.value)
    else r.None?
  }

  lemma {:induction false} BothRead(ms: seq<Member>, ss: seq<Slot>, a: seq<nat>, b: seq<nat>, x: nat, y: nat,
                                    p: Progress)
    requires SchemaOk(ms) && TypedAll(ms, ss) && Indices(a, |ms|) && Indices(b, |ms|) && SideBySide(a, b, x, y)
    requires SchemaOk(Chosen(ms, b)) && TypedAll(Chosen(ms, a), Chosen(ss, a))
    requires EncodeFrom(Chosen(ms, a), Chosen(ss, a), x).Some?
    requires |EncodeFrom(Chosen(ms, a), Chosen(ss, a), x).value| < TWO32
    requires Filled(Chosen(ms, b), Expected(ms, ss, a, b), Lost(ms, a, b), y, p)
    ensures TypedAll(Chosen(ms, b), p.slots) && Reads(ms, ss, a, b, x, y, p)
    decreases |a| - x + |b| - y
  {
    hide SchemaOk, TypedAll, EncodeSlot, DecodeLoop, Filled, Lost, SlotTerminated, SideBySide, DefaultSlot, SameSlot;
    hide Chosen, Expected;
    AllSlotsTyped(ms, ss);
    var ws, rs, vs, es, lost := Chosen(ms, a), Chosen(ms, b), Chosen(ss, a), Expected(ms, ss, a, b), Lost(ms, a, b);
    FilledTyped(rs, es, lost, y, p);
    NextSide(a, b, x, y, |ms|);
    assert x <= |a| && y <= |b| by { SideBounds(a, b, x, y); }
    if x < |a| && (y == |b| || a[x] < b[y]) {
      BothRead(ms, ss, a, b, x + 1, y, p);
      AllSlots(ws, vs, x);
      MemberFacts(ms, a[x]);
      NotShared(ms, b, a[x]);
      UnknownMember(rs, p, ws[x], vs[x], EncodeFrom(ws, vs, x + 1).value);
    } else if y < |b| && (x == |a| || b[y] < a[x]) {
      AbsentMember(ms, ss, a, b, y, p);
      BothRead(ms, ss, a, b, x, y + 1, p);
    } else if x < |a| {
      AllSlots(ws, vs, x);
      WrittenNotLost(ms, a, b, y);
      ExpectedTyped(ms, ss, a, b);
      var q := SlotStep(rs, es, lost, y, p, EncodeFrom(ws, vs, x + 1).value);
      if SlotTerminated(rs[y], es[y]) {
        BothRead(ms, ss, a, b, x + 1, y + 1, q);
      }
    } else {
      NothingLeft(rs, p);
    }
  }

  lemma SideBounds(a: seq<nat>, b: seq<nat>, x: nat, y: nat)
    requires SideBySide(a, b, x, y)
    ensures x <= |a| && y <= |b|
  {
  }

  lemma NothingLeft(ms: seq<Member>, p: Progress)
    requires SchemaOk(ms) && TypedAll(ms, p.slots)
    ensures DecodeLoop(ms, p, []) == Some(p)
  {
  }

  lemma AbsentMember(ms: seq<Member>, ss: seq<Slot>, a: seq<nat>, b: seq<nat>, y: nat, p: Progress)
    requires SchemaOk(ms) && TypedAll(ms, ss) && Indices(b, |ms|) && y < |b| && b[y] !in a
    requires Filled(Chosen(ms, b), Expected(ms, ss, a, b), Lost(ms, a, b), y, p)
    ensures Filled(Chosen(ms, b), Expected(ms, ss, a, b), Lost(ms, a, b), y + 1, p)
  {
    hide SchemaOk, TypedAll, Filled, DefaultSlot, SameSlot, RequiredBefore;
    AllSlotsTyped(ms, ss);
    MemberFacts(ms, b[y]);
    DefaultSlotTyped(ms[b[y]]);
    SlotSameItself(ms[b[y]], DefaultSlot(ms[b[y]]));
    FilledSkip(Chosen(ms, b), Expected(ms, ss, a, b), Lost(ms, a, b), y, p);
  }

  /** A required member of the reader, one of the first 64, was not written. */
  ghost predicate RequiredMissing(ms: seq<Member>, a: seq<nat>, b: seq<nat>)
    requires forall j :: 0 <= j < |b| ==> b[j] < |ms|
  {
    exists j :: 0 <= j < |b| && ms[b[j]].Required? && b[j] !in a && RequiredBefore(Chosen(ms, b), j) < MAX_REQUIRED
  }

  lemma AllSeenIff(ms: seq<Member>, ss: seq<Slot>, a: seq<nat>, b: seq<nat>, p: Progress)
    requires |ss| == |ms| && Indices(b, |ms|)
    requires Filled(Chosen(ms, b), Expected(ms, ss, a, b), Lost(ms, a, b), |b|, p)
    ensures AllSeen(Chosen(ms, b), p.seen) <==> !RequiredMissing(ms, a, b)
  {
    hide TypedAll, SameSlot, RequiredBefore, DefaultSlot;
    var rs := Chosen(ms, b);
    if RequiredMissing(ms, a, b) {
      var j :| 0 <= j < |b| && ms[b[j]].Required? && b[j] !in a && RequiredBefore(rs, j) < MAX_REQUIRED;
      assert RequiredBefore(rs, j) in Lost(ms, a, b);
      RequiredGrows(rs, j, |b|);
    } else {
      forall n | 0 <= n < RequiredBefore(rs, |rs|) && n < MAX_REQUIRED ensures n in p.seen {
        var i := RequiredNumber(rs, |rs|, n);
        assert n !in Lost(ms, a, b);
      }
    }
  }

  /** A writer that knows the members `a` of a schema and a reader that knows the members `b`: the message is decoded
      if and only if no required member is missing and the texts of shared members have room for their terminators; and
      then the reader has what was written of the members they share, and its defaults of the others. */
  lemma EvolvedReadsBackIff(ms: seq<Member>, ss: seq<Slot>, a: seq<nat>, b: seq<nat>)
    requires SchemaOk(ms) && TypedAll(ms, ss) && Indices(a, |ms|) && Indices(b, |ms|)
    ensures TypedAll(Chosen(ms, a), Chosen(ss, a)) && SchemaOk(Chosen(ms, b))
    ensures var e := Encode(Chosen(ms, a), Chosen(ss, a));
            e.Some? && |e.value| < TWO32 ==>
              var r := Decode(Chosen(ms, b), e.value);
              && (r.Some? <==> !RequiredMissing(ms, a, b) && SharedTerminated(ms, ss, a, b, 0))
              && (r.Some? ==> SameAll(Chosen(ms, b), Expected(ms, ss, a, b), r.value))
  {
    hide SchemaOk, TypedAll, DecodeLoop, Filled, Lost, SharedTerminated, EncodeFrom, AllSeen, RequiredMissing, SameAll;
    hide Chosen, Expected;
    AllSlotsTyped(ms, ss);
    ChosenOk(ms, ss, a);
    ChosenOk(ms, ss, b);
    var e := Encode(Chosen(ms, a), Chosen(ss, a));
    if e.Some? && |e.value| < TWO32 {
      var rs := Chosen(ms, b);
      DefaultsTyped(rs);
      var p := Progress(Defaults(rs), {});
      NothingFilled(ms, ss, a, b);
      BothRead(ms, ss, a, b, 0, 0, p);
      var r := DecodeLoop(rs, p, e.value);
      if r.Some? {
        AllSeenIff(ms, ss, a, b, r.value);
        AllFilled(rs, Expected(ms, ss, a, b), Lost(ms, a, b), r.value);
      }
    }
  }

  lemma NothingFilled(ms: seq<Member>, ss: seq<Slot>, a: seq<nat>, b: seq<nat>)
    requires SchemaOk(ms) && TypedAll(ms, ss) && Indices(b, |ms|) && TypedAll(Chosen(ms, b), Defaults(Chosen(ms, b)))
    ensures Filled(Chosen(ms, b), Expected(ms, ss, a, b), Lost(ms, a, b), 0, Progress(Defaults(Chosen(ms, b)), {}))
    ensures SideBySide(a, b, 0, 0)
  {
    hide SchemaOk, TypedAll, DefaultSlot, SameSlot;
  }

  lemma AllFilled(ms: seq<Member>, ss: seq<Slot>, lost: set<nat>, p: Progress)
    requires Filled(ms, ss, lost, |ms|, p)
    ensures SameAll(ms, ss, p.slots)
  {
    hide TypedAll, SameSlot, RequiredBefore;
  }
}
