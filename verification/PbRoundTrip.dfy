/** What is decoded from an encoded message is that message, exactly when its texts have room for a terminator. */
module PbRoundTrip {
  import opened InternalKeys
  import opened Masking
  import opened Coding
  import opened PbWire
  import opened PbMessages
  import opened PbEncoding
  import opened PbDecoding

  // ---------- when it can be read back ----------

  /** Every text that is written leaves room for the terminator that the decoder puts behind it. */
  ghost predicate Terminated(k: Kind, v: Value)
    requires Typed(k, v)
    decreases k, 0
  {
    if k.Sub? then AllTerminated(k.members, v.slots, 0)
    else k.Text? ==> |v.bytes| < k.capacity
  }

  ghost predicate ItemsTerminated(k: Kind, vs: seq<Value>, i: nat)
    requires TypedItems(k, vs)
    decreases k, 1
  {
    forall j :: i <= j < |vs| ==> Terminated(k, vs[j])
  }

  ghost predicate SlotTerminated(m: Member, s: Slot)
    requires TypedSlot(m, s)
    decreases m, 0
  {
    match m
    case Required(_, k, _) => Terminated(k, s.v)
    case Optional(_, k, _) => s.has ==> Terminated(k, s.v)
    case Singular(_, k) => !IsZero(k, s.v) ==> Terminated(k, s.v)
    case Repeated(_, k, _) => ItemsTerminated(k, s.items, 0)
    case OneOf(os) => forall j :: 0 <= j < |os| && os[j].tag == s.which ==> Terminated(os[j].kind, s.v)
  }

  ghost predicate AllTerminated(ms: seq<Member>, ss: seq<Slot>, i: nat)
    requires TypedAll(ms, ss)
    decreases ms, 0
  {
    forall j :: i <= j < |ms| ==> SlotTerminated(ms[j], ss[j])
  }

  // ---------- values ----------

  lemma SubstreamReads(b: Bytes, more: Bytes)
    requires |b| < TWO32
    ensures Substream(PutSlice(b) + more) == Some(ParsedSlice(b, more))
  {
    hide Varint, Varint32;
    assert PutSlice(b) + more == Varint(|b|) + (b + more);
    Varint32Reads(|b|, b + more);
  }

  lemma NumberReads(k: Kind, v: Value, more: Bytes)
    requires (k.Int? || k.UInt? || k.SInt?) && Leaf(k, v)
    ensures Typed(k, v) && EncodeValue(k, v).Some?
    ensures ReadNumber(k, EncodeValue(k, v).value + more) == Some(Read(v, more))
  {
    hide Varint, GetVarint64;
    var u := match k case Int(_) => ToUnsigned(v.n) case UInt(_) => v.n case SInt(_) => ZigZag(v.n);
    if !k.UInt? {
      SignedRoundTrips(v.n);
    }
    Varint64RoundTrip(u, more);
  }

  lemma LeafReads(k: Kind, v: Value, more: Bytes)
    requires Leaf(k, v) && !k.Sub? && EncodeValue(k, v).Some? && |EncodeValue(k, v).value| < TWO32
    ensures ReadLeaf(k, EncodeValue(k, v).value + more) == if Terminated(k, v) then Some(Read(v, more)) else None
  {
    hide Varint, Varint32, Fixed32, DecodeFixed32, Substream, PutSlice, ReadNumber;
    var s := EncodeValue(k, v).value + more;
    match k
    case Bool => Varint32Reads(if v.b then 1 else 0, more);
    case Fixed4 => FixedFront(v.n, more); assert s[4..] == more;
    case Fixed8 => Fixed64Front(v.n, more); assert s[8..] == more;
    case ByteArray(_) => SliceSize(v.bytes); SubstreamReads(v.bytes, more);
    case Text(_) => SliceSize(v.bytes); SubstreamReads(v.bytes, more);
    case FixedBytes(n) =>
      SliceSize(v.bytes);
      SubstreamReads(v.bytes, more);
      assert n == 0 ==> v.bytes == ZeroBytes(n);
    case _ => NumberReads(k, v, more);
  }

  lemma SliceSize(b: Bytes)
    ensures |b| < |PutSlice(b)|
  {
  }

  /** A decoded value: the same, or none if some text in it has no terminator. */
  ghost predicate ReadsBack(k: Kind, v: Value, more: Bytes, r: Option<Read>)
    requires Typed(k, v)
  {
    if Terminated(k, v) then r.Some? && Same(k, v, r.value.v) && r.value.rest == more else r.None?
  }

  lemma {:induction false} ValueReadsBack(k: Kind, v: Value, dest: Value, more: Bytes)
    requires KindOk(k) && Typed(k, v) && EncodeValue(k, v).Some? && |EncodeValue(k, v).value| < TWO32
    requires k.Sub? ==> dest == DefaultOf(k)
    ensures k.Sub? ==> Typed(k, dest)
    ensures ReadsBack(k, v, more, DecodeValue(k, dest, EncodeValue(k, v).value + more))
    decreases k, 0, 0
  {
    hide Substream, PutSlice, DecodeNoInit, AllTerminated, ReadLeaf, Leaf;
    if k.Sub? {
      DefaultTyped(k);
      var body := EncodeFrom(k.members, v.slots, 0).value;
      SliceSize(body);
      SubstreamReads(body, more);
      MessageReadsBack(k.members, v.slots);
    } else {
      LeafReads(k, v, more);
    }
  }

  // ---------- packed items ----------

  /** Packed items read back as they are, after those already there. */
  lemma {:induction false} PackedReadsBack(k: Kind, vs: seq<Value>, i: nat, done: seq<Value>, max: nat)
    requires Packable(k) && TypedItems(k, vs) && TypedItems(k, done) && i <= |vs| && |done| + |vs| - i <= max
    requires EncodeItems(k, vs, i).Some? && |EncodeItems(k, vs, i).value| < TWO32
    ensures DecodePacked(k, done, max, EncodeItems(k, vs, i).value) == Some(done + vs[i..])
    decreases |vs| - i
  {
    hide ReadLeaf, EncodeValue;
    if i == |vs| {
      assert done + vs[i..] == done;
    } else {
      var first, rest := EncodeValue(k, vs[i]).value, EncodeItems(k, vs, i + 1).value;
      LeafReads(k, vs[i], rest);
      LeafBytes(k, vs[i]);
      PackedReadsBack(k, vs, i + 1, done + [vs[i]], max);
      assert done + [vs[i]] + vs[i + 1..] == done + vs[i..];
    }
  }

  lemma LeafBytes(k: Kind, v: Value)
    requires Packable(k) && Typed(k, v) && EncodeValue(k, v).Some?
    ensures |EncodeValue(k, v).value| > 0
  {
  }

  // ---------- fields ----------

  /** How far decoding has come: members before `i` are as in the message, the others as they were set at first.  The
      required ones before `i` were seen, but for those with a number in `lost`. */
  ghost predicate Filled(ms: seq<Member>, ss: seq<Slot>, lost: set<nat>, i: nat, p: Progress) {
    && |ms| == |ss| == |p.slots| && i <= |ms| && TypedAll(ms, p.slots)
    && (forall j :: 0 <= j < i ==> SameSlot(ms[j], ss[j], p.slots[j]))
    && (forall j :: i <= j < |ms| ==> p.slots[j] == DefaultSlot(ms[j]))
    && (forall j :: 0 <= j < i && ms[j].Required? && RequiredBefore(ms, j) < MAX_REQUIRED ==>
         RequiredBefore(ms, j) in p.seen + lost)
    && p.seen !! lost
  }

  ghost predicate NotLost(ms: seq<Member>, i: nat, lost: set<nat>)
    requires i < |ms|
  {
    ms[i].Required? ==> RequiredBefore(ms, i) !in lost
  }

  lemma OneMember(ms: seq<Member>, tag: nat, i: nat)
    requires SchemaOk(ms) && i < |ms| && HasTag(ms[i], tag)
    ensures MemberIndex(ms, tag, 0) == i
  {
    hide MemberOk, HasTag;
    var r := MemberIndex(ms, tag, 0);
    assert r <= i;
  }

  /** What the loop does with a field: it decodes it into the member that has the tag. */
  ghost function Afterwards(ms: seq<Member>, p: Progress, i: nat, f: Option<ReadSlot>): Option<Progress>
    requires SchemaOk(ms) && TypedAll(ms, p.slots) && i < |ms| && (f.Some? ==> TypedSlot(ms[i], f.value.slot))
  {
    if f.None? then None
    else
      var slots := p.slots[i := f.value.slot];
      assert TypedAll(ms, slots);
      DecodeLoop(ms, Progress(slots, Noted(ms, i, p.seen)), f.value.rest)
  }

  /** What the loop reads of a tag. */
  lemma TagReads(tag: nat, wireType: nat, body: Bytes)
    requires TagOk(tag) && wireType < 8
    ensures var s := TagBytes(tag, wireType) + body;
            && s != [] && Varint32(s) == Some(Parsed(tag * 8 + wireType, body))
            && tag * 8 + wireType > 0 && (tag * 8 + wireType) / 8 == tag && (tag * 8 + wireType) % 8 == wireType
  {
    hide Varint, Varint32;
    Varint32Reads(tag * 8 + wireType, body);
    assert |Varint(tag * 8 + wireType)| >= 1;
  }

  lemma TagStep(ms: seq<Member>, p: Progress, i: nat, tag: nat, wireType: nat, body: Bytes)
    requires SchemaOk(ms) && TypedAll(ms, p.slots) && i < |ms| && HasTag(ms[i], tag) && TagOk(tag) && wireType < 8
    ensures MemberOk(ms[i]) && TypedSlot(ms[i], p.slots[i])
    ensures DecodeLoop(ms, p, TagBytes(tag, wireType) + body)
         == Afterwards(ms, p, i, DecodeSlot(ms[i], p.slots[i], tag, wireType, body))
  {
    hide TagBytes, Varint32, DecodeSlot, HasTag, MemberOk, TypedSlot, MemberIndex, Noted, SchemaOk, TypedAll, Skip;
    TagReads(tag, wireType, body);
    OneMember(ms, tag, i);
    MemberFacts(ms, i);
    AllSlots(ms, p.slots, i);
  }

  lemma MemberFacts(ms: seq<Member>, i: nat)
    requires SchemaOk(ms) && i < |ms|
    ensures MemberOk(ms[i])
  {
  }

  /** The member is done: what was read is the same. */
  lemma FilledNext(ms: seq<Member>, ss: seq<Slot>, lost: set<nat>, i: nat, p: Progress, slot: Slot)
    requires Filled(ms, ss, lost, i, p) && i < |ms| && NotLost(ms, i, lost)
    requires TypedSlot(ms[i], slot) && SameSlot(ms[i], ss[i], slot)
    ensures Filled(ms, ss, lost, i + 1, Progress(p.slots[i := slot], Noted(ms, i, p.seen)))
  {
    hide TypedSlot, SameSlot, DefaultSlot, RequiredBefore;
  }

  /** An absent member: nothing is written, and the default is the same. */
  lemma FilledSkip(ms: seq<Member>, ss: seq<Slot>, lost: set<nat>, i: nat, p: Progress)
    requires Filled(ms, ss, lost, i, p) && i < |ms| && SameSlot(ms[i], ss[i], DefaultSlot(ms[i]))
    requires ms[i].Required? ==> RequiredBefore(ms, i) in lost
    ensures Filled(ms, ss, lost, i + 1, p)
  {
    hide TypedSlot, SameSlot, DefaultSlot, RequiredBefore, TypedAll;
  }

  /** What decoding the bytes of member `i` comes to. */
  ghost predicate Stepped(ms: seq<Member>, ss: seq<Slot>, lost: set<nat>, i: nat, p: Progress, rest: Bytes, q: Progress)
    requires SchemaOk(ms) && TypedAll(ms, ss) && TypedAll(ms, p.slots) && i < |ms| && EncodeSlot(ms[i], ss[i]).Some?
  {
    var r := DecodeLoop(ms, p, EncodeSlot(ms[i], ss[i]).value + rest);
    if SlotTerminated(ms[i], ss[i]) then Filled(ms, ss, lost, i + 1, q) && r == DecodeLoop(ms, q, rest) else r.None?
  }

  /** A member written as a tag and one value. */
  lemma TaggedStep(ms: seq<Member>, p: Progress, i: nat, tag: nat, k: Kind, v: Value, dest: Value, rest: Bytes)
    returns (x: Option<Read>)
    requires SchemaOk(ms) && TypedAll(ms, p.slots) && i < |ms| && HasTag(ms[i], tag) && TagOk(tag)
    requires KindOk(k) && Typed(k, v) && EncodeTagged(tag, k, v).Some? && |EncodeTagged(tag, k, v).value| < TWO32
    requires k.Sub? ==> dest == DefaultOf(k)
    requires k < ms[i]
    ensures k.Sub? ==> Typed(k, dest)
    ensures x == DecodeValue(k, dest, EncodeValue(k, v).value + rest) && ReadsBack(k, v, rest, x)
    ensures MemberOk(ms[i]) && TypedSlot(ms[i], p.slots[i])
    ensures DecodeLoop(ms, p, EncodeTagged(tag, k, v).value + rest)
         == Afterwards(ms, p, i, DecodeSlot(ms[i], p.slots[i], tag, WireType(k), EncodeValue(k, v).value + rest))
    decreases ms, 0, 0
  {
    hide ReadsBack, DecodeLoop, DecodeSlot, TagBytes, DecodeValue, EncodeValue, SchemaOk, MemberOk, TypedAll;
    hide Afterwards, KindOk, Typed, HasTag;
    var t, e := TagBytes(tag, WireType(k)), EncodeValue(k, v).value;
    assert t + e + rest == t + (e + rest);
    ValueReadsBack(k, v, dest, rest);
    TagStep(ms, p, i, tag, WireType(k), e + rest);
    x := DecodeValue(k, dest, e + rest);
  }

  /** Required, optional and singular fields. */
  lemma PlainStep(ms: seq<Member>, ss: seq<Slot>, lost: set<nat>, i: nat, p: Progress, rest: Bytes)
    returns (q: Progress)
    requires SchemaOk(ms) && TypedAll(ms, ss) && Filled(ms, ss, lost, i, p) && i < |ms| && NotLost(ms, i, lost)
    requires ms[i].Required? || ms[i].Optional? || ms[i].Singular?
    requires EncodeSlot(ms[i], ss[i]).Some? && |EncodeSlot(ms[i], ss[i]).value| < TWO32
    ensures Stepped(ms, ss, lost, i, p, rest, q)
    decreases ms, 1, 0
  {
    hide DecodeLoop, DecodeValue, EncodeValue, EncodeTagged, SchemaOk, TypedAll, Typed, KindOk, Terminated, Same;
    hide Filled, IsZero;
    SlotFacts(ms, ss, lost, i, p);
    MemberFacts(ms, i);
    var m, slot := ms[i], ss[i];
    var absent := (m.Optional? && !slot.has) || (m.Singular? && IsZero(m.kind, slot.v));
    if absent {
      if m.Singular? {
        ZeroIsDefault(m.kind, slot.v);
      }
      FilledSkip(ms, ss, lost, i, p);
      q := p;
      assert [] + rest == rest;
    } else {
      var x := TaggedStep(ms, p, i, m.tag, m.kind, slot.v, p.slots[i].v, rest);
      q := p;
      if x.Some? {
        var now := if m.Optional? then Maybe(true, x.value.v) else One(x.value.v);
        q := Progress(p.slots[i := now], Noted(ms, i, p.seen));
        assert SameSlot(m, slot, now);
        FilledNext(ms, ss, lost, i, p, now);
      }
    }
  }

  lemma SlotFacts(ms: seq<Member>, ss: seq<Slot>, lost: set<nat>, i: nat, p: Progress)
    requires TypedAll(ms, ss) && Filled(ms, ss, lost, i, p) && i < |ms|
    ensures |ss| == |ms| == |p.slots| && TypedSlot(ms[i], ss[i]) && TypedAll(ms, p.slots)
    ensures TypedSlot(ms[i], p.slots[i]) && p.slots[i] == DefaultSlot(ms[i])
  {
  }

  /** A packed array. */
  lemma PackedStep(ms: seq<Member>, ss: seq<Slot>, lost: set<nat>, i: nat, p: Progress, rest: Bytes)
    returns (q: Progress)
    requires SchemaOk(ms) && TypedAll(ms, ss) && Filled(ms, ss, lost, i, p) && i < |ms| && NotLost(ms, i, lost)
    requires ms[i].Repeated? && Packable(ms[i].kind) && TypedSlot(ms[i], ss[i]) && ss[i].items != []
    requires EncodeSlot(ms[i], ss[i]).Some? && |EncodeSlot(ms[i], ss[i]).value| < TWO32
    ensures Stepped(ms, ss, lost, i, p, rest, q)
  {
    hide DecodeLoop, DecodePacked, EncodeItems, SchemaOk, TypedAll, Typed, Filled, TagBytes, PutSlice, Substream;
    SlotFacts(ms, ss, lost, i, p);
    MemberFacts(ms, i);
    var m, items := ms[i], ss[i].items;
    var t, body := TagBytes(m.tag, 2), EncodeItems(m.kind, items, 0).value;
    SliceSize(body);
    assert t + PutSlice(body) + rest == t + (PutSlice(body) + rest);
    TagStep(ms, p, i, m.tag, 2, PutSlice(body) + rest);
    SubstreamReads(body, rest);
    PackedReadsBack(m.kind, items, 0, [], m.max);
    assert [] + items[0..] == items;
    SameLeaves(m.kind, items);
    q := Progress(p.slots[i := Many(items)], Noted(ms, i, p.seen));
    FilledNext(ms, ss, lost, i, p, Many(items));
  }

  lemma SameLeaves(k: Kind, vs: seq<Value>)
    requires Packable(k) && TypedItems(k, vs)
    ensures SameItems(k, vs, vs) && ItemsTerminated(k, vs, 0)
  {
  }

  /** The items of an array with a tag each, from the `n`-th on; `p` holds those before. */
  lemma {:induction false} EachStep(ms: seq<Member>, i: nat, p: Progress, vs: seq<Value>, n: nat, rest: Bytes)
    returns (q: Progress)
    requires SchemaOk(ms) && TypedAll(ms, p.slots) && i < |ms| && ms[i].Repeated? && !Packable(ms[i].kind)
    requires TypedItems(ms[i].kind, vs) && n <= |vs| <= ms[i].max
    requires p.slots[i].Many? && SameItems(ms[i].kind, vs[..n], p.slots[i].items)
    requires EncodeEach(ms[i].tag, ms[i].kind, vs, n).Some? && |EncodeEach(ms[i].tag, ms[i].kind, vs, n).value| < TWO32
    ensures var r := DecodeLoop(ms, p, EncodeEach(ms[i].tag, ms[i].kind, vs, n).value + rest);
            if ItemsTerminated(ms[i].kind, vs, n)
            then TypedAll(ms, q.slots) && q.slots[i].Many? && SameItems(ms[i].kind, vs, q.slots[i].items)
                 && q == Progress(p.slots[i := q.slots[i]], p.seen) && r == DecodeLoop(ms, q, rest)
            else r.None?
    decreases ms, 1, |vs| - n
  {
    hide DecodeLoop, DecodeValue, EncodeValue, EncodeTagged, SchemaOk, Typed, KindOk, Terminated, Same, RequiredBefore;
    var m, k := ms[i], ms[i].kind;
    MemberFacts(ms, i);
    q := p;
    if n == |vs| {
      assert vs[..n] == vs && [] + rest == rest;
      assert p.slots[i := p.slots[i]] == p.slots;
    } else {
      var e, more := EncodeTagged(m.tag, k, vs[n]).value, EncodeEach(m.tag, k, vs, n + 1).value;
      assert e + more + rest == e + (more + rest);
      var x := TaggedStep(ms, p, i, m.tag, k, vs[n], DefaultOf(k), more + rest);
      if Terminated(k, vs[n]) {
        var items := p.slots[i].items + [x.value.v];
        var next := Progress(p.slots[i := Many(items)], p.seen);
        assert vs[..n + 1] == vs[..n] + [vs[n]];
        assert SameItems(k, vs[..n + 1], items);
        assert Noted(ms, i, p.seen) == p.seen;
        assert TypedAll(ms, next.slots);
        q := EachStep(ms, i, next, vs, n + 1, rest);
        if ItemsTerminated(k, vs, n + 1) {
          assert next.slots[i := q.slots[i]] == p.slots[i := q.slots[i]];
        }
      }
    }
  }

  /** An array of values that are not packed. */
  lemma UnpackedStep(ms: seq<Member>, ss: seq<Slot>, lost: set<nat>, i: nat, p: Progress, rest: Bytes)
    returns (q: Progress)
    requires SchemaOk(ms) && TypedAll(ms, ss) && Filled(ms, ss, lost, i, p) && i < |ms| && NotLost(ms, i, lost)
    requires ms[i].Repeated? && !Packable(ms[i].kind) && TypedSlot(ms[i], ss[i]) && ss[i].items != []
    requires EncodeSlot(ms[i], ss[i]).Some? && |EncodeSlot(ms[i], ss[i]).value| < TWO32
    ensures Stepped(ms, ss, lost, i, p, rest, q)
    decreases ms, 2, 0
  {
    hide DecodeLoop, EncodeEach, SchemaOk, TypedAll, Typed, Filled, Same, Terminated;
    SlotFacts(ms, ss, lost, i, p);
    var m, items := ms[i], ss[i].items;
    assert items[..0] == [];
    q := EachStep(ms, i, p, items, 0, rest);
    if ItemsTerminated(m.kind, items, 0) {
      assert Noted(ms, i, p.seen) == p.seen;
      AllSlots(ms, q.slots, i);
      FilledNext(ms, ss, lost, i, p, q.slots[i]);
    }
  }

  lemma AllSlots(ms: seq<Member>, ss: seq<Slot>, i: nat)
    requires TypedAll(ms, ss) && i < |ms|
    ensures |ss| == |ms| && TypedSlot(ms[i], ss[i])
  {
  }

  /** Of the fields of a oneof at most one is written: that of the alternative present. */
  lemma {:induction false} OptionWritten(os: seq<Choice>, which: nat, v: Value, j: nat)
    requires forall i :: 0 <= i < |os| && os[i].tag == which ==> Typed(os[i].kind, v)
    requires forall a, b :: 0 <= a < b < |os| ==> os[a].tag != os[b].tag
    requires j <= |os|
    ensures var r := OptionIndex(os, which, j);
            EncodeOptions(os, which, v, j) == if r < |os| then EncodeOption(os[r], v) else Some([])
    decreases |os| - j
  {
    hide Typed, EncodeOption;
    if j < |os| {
      OptionWritten(os, which, v, j + 1);
      if os[j].tag == which {
        var e := EncodeOption(os[j], v);
        assert OptionIndex(os, which, j + 1) == |os|;
        assert e.Some? ==> e.value + [] == e.value;
      } else {
        var rest := EncodeOptions(os, which, v, j + 1);
        assert rest.Some? ==> [] + rest.value == rest.value;
      }
    }
  }

  lemma OneOfStep(ms: seq<Member>, ss: seq<Slot>, lost: set<nat>, i: nat, p: Progress, rest: Bytes)
    returns (q: Progress)
    requires SchemaOk(ms) && TypedAll(ms, ss) && Filled(ms, ss, lost, i, p) && i < |ms| && NotLost(ms, i, lost)
    requires ms[i].OneOf?
    requires EncodeSlot(ms[i], ss[i]).Some? && |EncodeSlot(ms[i], ss[i]).value| < TWO32
    ensures Stepped(ms, ss, lost, i, p, rest, q)
    decreases ms, 1, 0
  {
    hide DecodeLoop, DecodeValue, EncodeValue, EncodeTagged, EncodeOptions, SchemaOk, TypedAll, Typed, KindOk;
    hide Terminated, Same, Filled;
    SlotFacts(ms, ss, lost, i, p);
    MemberFacts(ms, i);
    var m, slot, os := ms[i], ss[i], ms[i].options;
    OptionWritten(os, slot.which, slot.v, 0);
    var j := OptionIndex(os, slot.which, 0);
    q := p;
    if j == |os| {
      FilledSkip(ms, ss, lost, i, p);
      assert [] + rest == rest;
    } else {
      var o := os[j];
      assert o < m;
      var x := TaggedStep(ms, p, i, o.tag, o.kind, slot.v, DefaultOf(o.kind), rest);
      assert SlotTerminated(m, slot) <==> Terminated(o.kind, slot.v);
      if x.Some? {
        var now := Which(o.tag, x.value.v);
        assert SameSlot(m, slot, now);
        q := Progress(p.slots[i := now], Noted(ms, i, p.seen));
        FilledNext(ms, ss, lost, i, p, now);
      }
    }
  }

  /** Any member. */
  lemma SlotStep(ms: seq<Member>, ss: seq<Slot>, lost: set<nat>, i: nat, p: Progress, rest: Bytes) returns (q: Progress)
    requires SchemaOk(ms) && TypedAll(ms, ss) && Filled(ms, ss, lost, i, p) && i < |ms| && NotLost(ms, i, lost)
    requires EncodeSlot(ms[i], ss[i]).Some? && |EncodeSlot(ms[i], ss[i]).value| < TWO32
    ensures Stepped(ms, ss, lost, i, p, rest, q)
    decreases ms, 3, 0
  {
    hide Stepped, SchemaOk, TypedAll, Filled;
    SlotFacts(ms, ss, lost, i, p);
    if ms[i].OneOf? {
      q := OneOfStep(ms, ss, lost, i, p, rest);
    } else if !ms[i].Repeated? {
      q := PlainStep(ms, ss, lost, i, p, rest);
    } else if ss[i].items == [] {
      q := p;
      EmptyArrayStep(ms, ss, lost, i, p, rest);
    } else if Packable(ms[i].kind) {
      q := PackedStep(ms, ss, lost, i, p, rest);
    } else {
      q := UnpackedStep(ms, ss, lost, i, p, rest);
    }
  }

  lemma EmptyArrayStep(ms: seq<Member>, ss: seq<Slot>, lost: set<nat>, i: nat, p: Progress, rest: Bytes)
    requires SchemaOk(ms) && TypedAll(ms, ss) && Filled(ms, ss, lost, i, p) && i < |ms| && NotLost(ms, i, lost)
    requires ms[i].Repeated? && TypedSlot(ms[i], ss[i]) && ss[i].items == []
    ensures TypedAll(ms, p.slots) && Stepped(ms, ss, lost, i, p, rest, p)
  {
    hide DecodeLoop, SchemaOk, TypedAll, Filled;
    SlotFacts(ms, ss, lost, i, p);
    FilledSkip(ms, ss, lost, i, p);
    var e := EncodeSlot(ms[i], ss[i]).value;
    assert e + rest == rest;
    assert SlotTerminated(ms[i], ss[i]);
  }

  /** All members from the `i`-th on. */
  lemma {:induction false} MembersReadBack(ms: seq<Member>, ss: seq<Slot>, i: nat, p: Progress)
    requires SchemaOk(ms) && TypedAll(ms, ss) && Filled(ms, ss, {}, i, p)
    requires EncodeFrom(ms, ss, i).Some? && |EncodeFrom(ms, ss, i).value| < TWO32
    ensures TypedAll(ms, p.slots)
    ensures var r := DecodeLoop(ms, p, EncodeFrom(ms, ss, i).value);
            if AllTerminated(ms, ss, i) then r.Some? && Filled(ms, ss, {}, |ms|, r.value) else r.None?
    decreases ms, 4, |ms| - i
  {
    hide EncodeSlot, SchemaOk, TypedAll, Filled, SlotTerminated, MemberIndex, DecodeSlot;
    FilledTyped(ms, ss, {}, i, p);
    if i < |ms| {
      var e, rest := EncodeSlot(ms[i], ss[i]).value, EncodeFrom(ms, ss, i + 1).value;
      var q := SlotStep(ms, ss, {}, i, p, rest);
      if SlotTerminated(ms[i], ss[i]) {
        MembersReadBack(ms, ss, i + 1, q);
      }
    }
  }

  lemma FilledTyped(ms: seq<Member>, ss: seq<Slot>, lost: set<nat>, i: nat, p: Progress)
    requires Filled(ms, ss, lost, i, p)
    ensures TypedAll(ms, p.slots) && |ss| == |ms| && i <= |ms|
    ensures i < |ms| && TypedAll(ms, ss) ==> TypedSlot(ms[i], ss[i])
  {
  }

  /** Required fields are numbered without gaps. */
  lemma {:induction false} RequiredNumber(ms: seq<Member>, n: nat, j: nat) returns (i: nat)
    requires n <= |ms| && j < RequiredBefore(ms, n)
    ensures i < n && ms[i].Required? && RequiredBefore(ms, i) == j
  {
    if ms[n - 1].Required? && j == RequiredBefore(ms, n - 1) {
      i := n - 1;
    } else {
      i := RequiredNumber(ms, n - 1, j);
    }
  }

  lemma FilledSeen(ms: seq<Member>, ss: seq<Slot>, p: Progress)
    requires Filled(ms, ss, {}, |ms|, p)
    ensures AllSeen(ms, p.seen) && SameAll(ms, ss, p.slots)
  {
    hide TypedAll, SameSlot, RequiredBefore;
    forall j | 0 <= j < RequiredBefore(ms, |ms|) && j < MAX_REQUIRED ensures j in p.seen {
      var i := RequiredNumber(ms, |ms|, j);
    }
  }

  /** A message decoded over the defaults of its struct. */
  lemma MessageReadsBack(ms: seq<Member>, ss: seq<Slot>)
    requires SchemaOk(ms) && TypedAll(ms, ss)
    requires EncodeFrom(ms, ss, 0).Some? && |EncodeFrom(ms, ss, 0).value| < TWO32
    ensures TypedAll(ms, Defaults(ms))
    ensures var r := DecodeNoInit(ms, Defaults(ms), EncodeFrom(ms, ss, 0).value);
            if AllTerminated(ms, ss, 0) then r.Some? && SameAll(ms, ss, r.value) else r.None?
    decreases ms, 5, 0
  {
    hide DecodeLoop, SchemaOk, TypedAll, SameAll, AllTerminated, AllSeen, EncodeFrom;
    DefaultsTyped(ms);
    var p := Progress(Defaults(ms), {});
    StartFilled(ms, ss);
    MembersReadBack(ms, ss, 0, p);
    var r := DecodeLoop(ms, p, EncodeFrom(ms, ss, 0).value);
    if r.Some? {
      FilledSeen(ms, ss, r.value);
    }
  }

  lemma StartFilled(ms: seq<Member>, ss: seq<Slot>)
    requires TypedAll(ms, ss) && TypedAll(ms, Defaults(ms))
    ensures Filled(ms, ss, {}, 0, Progress(Defaults(ms), {}))
  {
  }

  /** Round trip, exactly: decoding an encoded message gives it back, up to the contents of absent fields, if and only
      if every text in it leaves room for its terminator; otherwise decoding fails. */
  lemma RoundTripIff(ms: seq<Member>, ss: seq<Slot>)
    requires SchemaOk(ms) && TypedAll(ms, ss) && Encode(ms, ss).Some? && |Encode(ms, ss).value| < TWO32
    ensures var r := Decode(ms, Encode(ms, ss).value);
            && (r.Some? <==> AllTerminated(ms, ss, 0))
            && (r.Some? ==> SameAll(ms, ss, r.value))
  {
    hide DecodeNoInit, SchemaOk, TypedAll, SameAll, AllTerminated, EncodeFrom;
    MessageReadsBack(ms, ss);
  }

  // ---------- a full buffer, concretely ----------

  const TEXT_FIELD: seq<Member> := [Required(1, Text(1), Data([]))]
  const FULL_TEXT: seq<Slot> := [One(Data([65]))]

  /** A text that fills its buffer is encoded but cannot be decoded. */
  lemma FullBufferIsLost()
    ensures SchemaOk(TEXT_FIELD) && TypedAll(TEXT_FIELD, FULL_TEXT) && Encode(TEXT_FIELD, FULL_TEXT).Some?
    ensures Decode(TEXT_FIELD, Encode(TEXT_FIELD, FULL_TEXT).value) == None
  {
    var m, s := TEXT_FIELD[0], FULL_TEXT[0];
    assert MemberOk(m) && TypedSlot(m, s);
    assert Varint(10) == [10] && Varint(1) == [1];
    assert EncodeSlot(m, s) == Some([10] + ([1] + [65]));
    assert EncodeFrom(TEXT_FIELD, FULL_TEXT, 1) == Some([]);
    assert !SlotTerminated(m, s);
    RoundTripIff(TEXT_FIELD, FULL_TEXT);
  }
}
