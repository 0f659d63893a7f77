/** What any reader of the wire format makes of an encoded message, without knowing its descriptor, and how the decoder
    passes over fields it does not know (nanopb/pb_encode.c, nanopb/pb_decode.c). */
module PbScanning {
  import opened InternalKeys
  import opened Masking
  import opened Coding
  import opened PbWire
  import opened PbMessages
  import opened PbEncoding
  import opened PbDecoding
  import opened PbRoundTrip

  // ---------- the scanner ----------

  /** A number in base 128, low digits first; every byte but the last has its high bit set. */
  function Base128(s: Bytes): (r: Option<Parsed>)
    ensures r.Some? ==> |r.value.rest| < |s|
  {
    if s == [] then None
    else if s[0] < 128 then Some(Parsed(s[0] as nat, s[1..]))
    else
      var high := Base128(s[1..]);
      if high.None? then None else Some(Parsed(high.value.value * 128 + (s[0] as nat - 128), high.value.rest))
  }

  /** How many bytes a field takes behind its tag. */
  function Width(wireType: nat, s: Bytes): Option<nat> {
    match wireType
    case 0 => (var v := Base128(s); if v.None? then None else Some(|s| - |v.value.rest|))
    case 1 => Some(8)
    case 2 => (var n := Base128(s); if n.None? then None else Some(|s| - |n.value.rest| + n.value.value))
    case 5 => Some(4)
    case _ => None
  }

  datatype Field = Field(tag: nat, body: Bytes)

  /** The fields of a message: the low three bits of a tag say how long what follows is. */
  function Fields(s: Bytes): Option<seq<Field>>
    decreases |s|
  {
    if s == [] then Some([])
    else
      var t := Base128(s);
      if t.None? then None
      else
        var w := Width(t.value.value % 8, t.value.rest);
        if w.None? || w.value > |t.value.rest| then None
        else FieldsFrom([Field(t.value.value / 8, t.value.rest[..w.value])], Fields(t.value.rest[w.value..]))
  }

  function FieldsFrom(first: seq<Field>, more: Option<seq<Field>>): Option<seq<Field>> {
    if more.None? then None else Some(first + more.value)
  }

  // ---------- what a message should scan to ----------

  predicate Scalar(k: Kind) {
    !k.ByteArray? && !k.Text? && !k.FixedBytes? && !k.Sub?
  }

  function BodyOf(k: Kind, v: Value): Bytes
    requires Typed(k, v)
  {
    var e := EncodeValue(k, v);
    if e.Some? then e.value else []
  }

  function ItemFields(tag: nat, k: Kind, vs: seq<Value>, i: nat): seq<Field>
    requires TypedItems(k, vs)
    decreases |vs| - i
  {
    if i >= |vs| then [] else [Field(tag, BodyOf(k, vs[i]))] + ItemFields(tag, k, vs, i + 1)
  }

  /** A member is no field, or one; an array of values that have a length is one field for each. */
  function SlotFields(m: Member, s: Slot): seq<Field>
    requires TypedSlot(m, s)
  {
    match m
    case Required(tag, k, _) => [Field(tag, BodyOf(k, s.v))]
    case Optional(tag, k, _) => if s.has then [Field(tag, BodyOf(k, s.v))] else []
    case Singular(tag, k) => if IsZero(k, s.v) then [] else [Field(tag, BodyOf(k, s.v))]
    case Repeated(tag, k, _) =>
      if s.items == [] then []
      else if Scalar(k) then
        var items := EncodeItems(k, s.items, 0);
        [Field(tag, if items.Some? then PutSlice(items.value) else [])]
      else ItemFields(tag, k, s.items, 0)
    case OneOf(os) =>
      var j := OptionIndex(os, s.which, 0);
      if j < |os| then [Field(s.which, BodyOf(os[j].kind, s.v))] else []
  }

  /** The fields of the members from the `i`-th on, in order. */
  function MessageFields(ms: seq<Member>, ss: seq<Slot>, i: nat): seq<Field>
    requires TypedAll(ms, ss)
    decreases |ms| - i
  {
    if i >= |ms| then [] else SlotFields(ms[i], ss[i]) + MessageFields(ms, ss, i + 1)
  }

  // ---------- the encoding scans to it ----------

  lemma {:induction false} Base128Reads(n: nat, more: Bytes)
    ensures Base128(Varint(n) + more) == Some(Parsed(n, more))
  {
    hide Varint;
    VarintFront(n, more);
    if n >= 128 {
      Base128Reads(n / 128, more);
    }
  }

  lemma TaggedScans(tag: nat, wireType: nat, body: Bytes, more: Bytes)
    requires wireType < 8 && Width(wireType, body + more) == Some(|body|)
    ensures Fields(TagBytes(tag, wireType) + (body + more)) == FieldsFrom([Field(tag, body)], Fields(more))
  {
    hide Varint, Base128, Width, FieldsFrom;
    var s := TagBytes(tag, wireType) + (body + more);
    Base128Reads(tag * 8 + wireType, body + more);
    assert (tag * 8 + wireType) / 8 == tag && (tag * 8 + wireType) % 8 == wireType;
    assert s != [];
    assert (body + more)[..|body|] == body && (body + more)[|body|..] == more;
  }

  lemma SliceWidth(b: Bytes, more: Bytes)
    ensures Width(2, PutSlice(b) + more) == Some(|PutSlice(b)|)
  {
    hide Varint, Base128;
    assert PutSlice(b) + more == Varint(|b|) + (b + more);
    Base128Reads(|b|, b + more);
  }

  lemma VarintWidth(n: nat, more: Bytes)
    ensures Width(0, Varint(n) + more) == Some(|Varint(n)|)
  {
    hide Varint, Base128;
    Base128Reads(n, more);
  }

  /** The wire type of a value announces its length. */
  lemma ValueWidth(k: Kind, v: Value, more: Bytes)
    requires Typed(k, v) && EncodeValue(k, v).Some?
    ensures WireType(k) < 8 && Width(WireType(k), BodyOf(k, v) + more) == Some(|BodyOf(k, v)|)
  {
    hide Varint, Base128, PutSlice, Width, EncodeFrom;
    var body := BodyOf(k, v);
    match k
    case Bool => VarintWidth(if v.b then 1 else 0, more);
    case Int(_) => VarintWidth(ToUnsigned(v.n), more);
    case UInt(_) => VarintWidth(v.n, more);
    case SInt(_) => VarintWidth(ZigZag(v.n), more);
    case Fixed4 => FixedWidths(body + more); assert |body| == 4;
    case Fixed8 => FixedWidths(body + more); assert |body| == 8;
    case ByteArray(_) => SliceWidth(v.bytes, more);
    case Text(_) => SliceWidth(v.bytes, more);
    case FixedBytes(_) => SliceWidth(v.bytes, more);
    case Sub(ms) => SliceWidth(EncodeFrom(ms, v.slots, 0).value, more);
  }

  lemma FixedWidths(s: Bytes)
    ensures Width(1, s) == Some(8) && Width(5, s) == Some(4)
  {
  }

  lemma ValueScans(tag: nat, k: Kind, v: Value, more: Bytes)
    requires Typed(k, v) && EncodeTagged(tag, k, v).Some?
    ensures Fields(EncodeTagged(tag, k, v).value + more) == FieldsFrom([Field(tag, BodyOf(k, v))], Fields(more))
  {
    hide TagBytes, Fields, FieldsFrom, EncodeValue, Width;
    ValueWidth(k, v, more);
    TaggedScans(tag, WireType(k), BodyOf(k, v), more);
    var t, body := TagBytes(tag, WireType(k)), BodyOf(k, v);
    assert EncodeTagged(tag, k, v) == Some(t + body);
    assert t + body + more == t + (body + more);
  }

  lemma {:induction false} ItemsScan(tag: nat, k: Kind, vs: seq<Value>, i: nat, more: Bytes)
    requires TypedItems(k, vs) && i <= |vs| && EncodeEach(tag, k, vs, i).Some?
    ensures Fields(EncodeEach(tag, k, vs, i).value + more) == FieldsFrom(ItemFields(tag, k, vs, i), Fields(more))
    decreases |vs| - i
  {
    hide Fields, EncodeTagged, Typed, BodyOf;
    if i == |vs| {
      NothingScans(more);
    } else {
      var first, rest := EncodeTagged(tag, k, vs[i]).value, EncodeEach(tag, k, vs, i + 1).value;
      assert first + rest + more == first + (rest + more);
      ValueScans(tag, k, vs[i], rest + more);
      ItemsScan(tag, k, vs, i + 1, more);
      var one := [Field(tag, BodyOf(k, vs[i]))];
      if Fields(more).Some? {
        assert one + (ItemFields(tag, k, vs, i + 1) + Fields(more).value)
          == one + ItemFields(tag, k, vs, i + 1) + Fields(more).value;
      }
    }
  }

  lemma NothingScans(more: Bytes)
    ensures [] + more == more && Fields(more) == FieldsFrom([], Fields(more))
  {
    if Fields(more).Some? {
      assert [] + Fields(more).value == Fields(more).value;
    }
  }

  lemma SlotScans(m: Member, s: Slot, more: Bytes)
    requires TypedSlot(m, s) && EncodeSlot(m, s).Some? && (m.OneOf? ==> DistinctTags(m.options))
    ensures Fields(EncodeSlot(m, s).value + more) == FieldsFrom(SlotFields(m, s), Fields(more))
  {
    hide Fields, FieldsFrom, EncodeTagged, EncodeEach, EncodeItems, EncodeOptions, Typed, IsZero, BodyOf, TagBytes;
    hide PutSlice, ItemFields;
    NothingScans(more);
    match m
    case Required(tag, k, _) => ValueScans(tag, k, s.v, more);
    case Optional(tag, k, _) => if s.has { ValueScans(tag, k, s.v, more); }
    case Singular(tag, k) => if !IsZero(k, s.v) { ValueScans(tag, k, s.v, more); }
    case Repeated(tag, k, _) =>
      if s.items != [] {
        if Scalar(k) {
          var t, body := TagBytes(tag, 2), PutSlice(EncodeItems(k, s.items, 0).value);
          SliceWidth(EncodeItems(k, s.items, 0).value, more);
          TaggedScans(tag, 2, body, more);
          assert t + body + more == t + (body + more);
        } else {
          ItemsScan(tag, k, s.items, 0, more);
        }
      }
    case OneOf(os) =>
      OptionWritten(os, s.which, s.v, 0);
      var j := OptionIndex(os, s.which, 0);
      if j < |os| {
        ValueScans(s.which, os[j].kind, s.v, more);
      }
  }

  ghost predicate DistinctTags(os: seq<Choice>) {
    forall i, j :: 0 <= i < j < |os| ==> os[i].tag != os[j].tag
  }

  lemma {:induction false} MembersScan(ms: seq<Member>, ss: seq<Slot>, i: nat)
    requires SchemaOk(ms) && TypedAll(ms, ss) && i <= |ms| && EncodeFrom(ms, ss, i).Some?
    ensures Fields(EncodeFrom(ms, ss, i).value) == Some(MessageFields(ms, ss, i))
    decreases |ms| - i
  {
    hide Fields, EncodeSlot, SlotFields, SchemaOk, TypedSlot, TypedAll;
    AllSlotsTyped(ms, ss);
    if i == |ms| {
      NothingToScan();
    } else {
      MemberFacts(ms, i);
      MembersScan(ms, ss, i + 1);
      SlotScans(ms[i], ss[i], EncodeFrom(ms, ss, i + 1).value);
    }
  }

  lemma NothingToScan()
    ensures Fields([]) == Some([])
  {
  }

  lemma AllSlotsTyped(ms: seq<Member>, ss: seq<Slot>)
    requires TypedAll(ms, ss)
    ensures |ss| == |ms| && forall i :: 0 <= i < |ms| ==> TypedSlot(ms[i], ss[i])
  {
  }

  /** Without its descriptor, an encoded message falls into exactly its fields: the tags of its members in order, and
      behind each tag its value. */
  lemma EncodingScans(ms: seq<Member>, ss: seq<Slot>)
    requires SchemaOk(ms) && TypedAll(ms, ss) && Encode(ms, ss).Some?
    ensures Fields(Encode(ms, ss).value) == Some(MessageFields(ms, ss, 0))
  {
    hide Fields, EncodeFrom, SchemaOk, TypedAll, MessageFields;
    MembersScan(ms, ss, 0);
  }

  // ---------- skipping ----------

  lemma {:induction false} SkipVarintIsWidth(s: Bytes)
    ensures SkipVarint(s).Some? <==> Base128(s).Some?
    ensures SkipVarint(s).Some? ==> SkipVarint(s).value == Base128(s).value.rest
  {
    if s != [] && s[0] >= 128 {
      SkipVarintIsWidth(s[1..]);
    }
  }

  lemma {:induction false} RestIsSuffix(s: Bytes)
    requires Base128(s).Some?
    ensures var rest := Base128(s).value.rest; s[|s| - |rest|..] == rest
  {
    if s[0] >= 128 {
      RestIsSuffix(s[1..]);
      var rest := Base128(s).value.rest;
      assert s[|s| - |rest|..] == s[1..][|s[1..]| - |rest|..];
    }
  }

  /** An unknown field that has no length in front is passed over exactly when it is there, whatever it holds. */
  lemma SkipIsWidth(wireType: nat, s: Bytes)
    requires wireType != 2
    ensures var w := Width(wireType, s);
            Skip(wireType, s) == if w.Some? && w.value <= |s| then Some(s[w.value..]) else None
  {
    hide Base128, SkipVarint;
    SkipVarintIsWidth(s);
    if wireType == 0 && Base128(s).Some? {
      RestIsSuffix(s);
    }
  }

  /** An encoded value of any kind is passed over, and what follows it is left. */
  lemma ValueSkips(k: Kind, v: Value, more: Bytes)
    requires Typed(k, v) && EncodeValue(k, v).Some? && |EncodeValue(k, v).value| < TWO32
    ensures WireType(k) < 8 && Skip(WireType(k), EncodeValue(k, v).value + more) == Some(more)
  {
    hide Varint, Base128, PutSlice, Width, EncodeFrom, Skip, Fixed32;
    var body := EncodeValue(k, v).value;
    ValueWidth(k, v, more);
    if Scalar(k) {
      SkipIsWidth(WireType(k), body + more);
      assert (body + more)[|body|..] == more;
    } else {
      var b := if k.Sub? then EncodeFrom(k.members, v.slots, 0).value else v.bytes;
      SliceSize(b);
      SliceSkips(b, more);
    }
  }

  lemma SliceSkips(b: Bytes, more: Bytes)
    requires |b| < TWO32
    ensures Skip(2, PutSlice(b) + more) == Some(more)
  {
    hide PutSlice, Substream;
    SubstreamReads(b, more);
  }
}
