/** Encoding a message: the bytes, and the encoder that computes sizes in a first pass (nanopb/pb_encode.c). */
module PbEncoding {
  import opened InternalKeys
  import opened Masking
  import opened Coding
  import opened PbWire
  import opened PbMessages

  // ---------- the bytes of a message ----------

  function WireType(k: Kind): nat {
    match k
    case Fixed4 => 5
    case Fixed8 => 1
    case ByteArray(_) => 2
    case Text(_) => 2
    case FixedBytes(_) => 2
    case Sub(_) => 2
    case _ => 0
  }

  predicate Packable(k: Kind) {
    WireType(k) != 2
  }

  function TagBytes(tag: nat, wireType: nat): Bytes {
    Varint(tag * 8 + wireType)
  }

  function Join(a: Option<Bytes>, b: Option<Bytes>): Option<Bytes> {
    if a.Some? && b.Some? then Some(a.value + b.value) else None
  }

  function Prefixed(b: Option<Bytes>): Option<Bytes> {
    if b.None? then None else Some(PutSlice(b.value))
  }

  /** A value without its tag; nothing if a byte array claims more than its capacity. */
  function EncodeValue(k: Kind, v: Value): Option<Bytes>
    requires Typed(k, v)
    decreases k, 0, 0
  {
    match k
    case Bool => Some(Varint(if v.b then 1 else 0))
    case Int(_) => Some(Varint(ToUnsigned(v.n)))
    case UInt(_) => Some(Varint(v.n))
    case SInt(_) => Some(Varint(ZigZag(v.n)))
    case Fixed4 => Some(Fixed32(v.n))
    case Fixed8 => Some(Fixed64(v.n))
    case ByteArray(capacity) => if |v.bytes| > capacity then None else Some(PutSlice(v.bytes))
    case Text(_) => Some(PutSlice(v.bytes))
    case FixedBytes(_) => Some(PutSlice(v.bytes))
    case Sub(ms) => Prefixed(EncodeFrom(ms, v.slots, 0))
  }

  function EncodeTagged(tag: nat, k: Kind, v: Value): Option<Bytes>
    requires Typed(k, v)
    decreases k, 1, 0
  {
    Join(Some(TagBytes(tag, WireType(k))), EncodeValue(k, v))
  }

  ghost predicate TypedItems(k: Kind, vs: seq<Value>) {
    forall i :: 0 <= i < |vs| ==> Typed(k, vs[i])
  }

  /** The items of a packed array from the `i`-th on. */
  function EncodeItems(k: Kind, vs: seq<Value>, i: nat): Option<Bytes>
    requires TypedItems(k, vs)
    decreases k, 2, |vs| - i
  {
    if i >= |vs| then Some([]) else Join(EncodeValue(k, vs[i]), EncodeItems(k, vs, i + 1))
  }

  /** The same with a tag each. */
  function EncodeEach(tag: nat, k: Kind, vs: seq<Value>, i: nat): Option<Bytes>
    requires TypedItems(k, vs)
    decreases k, 2, |vs| - i
  {
    if i >= |vs| then Some([]) else Join(EncodeTagged(tag, k, vs[i]), EncodeEach(tag, k, vs, i + 1))
  }

  function EncodeOption(o: Choice, v: Value): Option<Bytes>
    requires Typed(o.kind, v)
    decreases o, 0, 0
  {
    EncodeTagged(o.tag, o.kind, v)
  }

  /** The alternatives of a oneof from the `j`-th on: the one present is written. */
  function EncodeOptions(os: seq<Choice>, which: nat, v: Value, j: nat): Option<Bytes>
    requires forall i :: 0 <= i < |os| && os[i].tag == which ==> Typed(os[i].kind, v)
    decreases os, 0, |os| - j
  {
    if j >= |os| then Some([])
    else Join(if os[j].tag == which then EncodeOption(os[j], v) else Some([]), EncodeOptions(os, which, v, j + 1))
  }

  /** A field; nothing if an array has more items than room. */
  function EncodeSlot(m: Member, s: Slot): Option<Bytes>
    requires TypedSlot(m, s)
    decreases m, 0, 0
  {
    match m
    case Required(tag, k, _) => EncodeTagged(tag, k, s.v)
    case Optional(tag, k, _) => if s.has then EncodeTagged(tag, k, s.v) else Some([])
    case Singular(tag, k) => if IsZero(k, s.v) then Some([]) else EncodeTagged(tag, k, s.v)
    case Repeated(tag, k, max) =>
      if s.items == [] then Some([])
      else if |s.items| > max then None
      else if Packable(k) then Join(Some(TagBytes(tag, 2)), Prefixed(EncodeItems(k, s.items, 0)))
      else EncodeEach(tag, k, s.items, 0)
    case OneOf(os) => EncodeOptions(os, s.which, s.v, 0)
  }

  /** The fields from the `i`-th on. */
  function EncodeFrom(ms: seq<Member>, ss: seq<Slot>, i: nat): Option<Bytes>
    requires TypedAll(ms, ss)
    decreases ms, 0, |ms| - i
  {
    if i >= |ms| then Some([]) else Join(EncodeSlot(ms[i], ss[i]), EncodeFrom(ms, ss, i + 1))
  }

  /** `pb_encode`. */
  function Encode(ms: seq<Member>, ss: seq<Slot>): Option<Bytes>
    requires TypedAll(ms, ss)
  {
    EncodeFrom(ms, ss, 0)
  }

  // ---------- streams ----------

  datatype Outcome = Good | StreamFull | SizeChanged | ArrayTooLong | BytesTooLong

  /** What was written to the buffer, and how many bytes the stream counted. */
  datatype Output = Output(out: Bytes, written: nat)

  /** What encoding `enc` does to a stream: it succeeds exactly when there is something to encode and room for all of
      it, a sizing stream only counts, and the size never changes between the two passes. */
  ghost predicate Effect(sizing: bool, max: nat, a: Output, b: Output, enc: Option<Bytes>, r: Outcome) {
    && r != SizeChanged && (r.StreamFull? ==> !sizing) && (r.ArrayTooLong? || r.BytesTooLong? ==> enc.None?)
    && (r.Good? <==> enc.Some? && (sizing || a.written + |enc.value| <= max))
    && (r.Good? ==> b == Output(if sizing then a.out else a.out + enc.value, a.written + |enc.value|))
  }

  lemma EffectJoin(sizing: bool, max: nat, a: Output, b: Output, c: Output, x: Option<Bytes>, y: Option<Bytes>,
                   r: Outcome)
    requires Effect(sizing, max, a, b, x, Good) && Effect(sizing, max, b, c, y, r)
    ensures Effect(sizing, max, a, c, Join(x, y), r)
  {
    if r.Good? {
      assert a.out + (x.value + y.value) == a.out + x.value + y.value;
    }
  }

  lemma EffectStop(sizing: bool, max: nat, a: Output, b: Output, x: Option<Bytes>, y: Option<Bytes>, r: Outcome)
    requires Effect(sizing, max, a, b, x, r) && !r.Good?
    ensures Effect(sizing, max, a, b, Join(x, y), r)
  {
  }

  lemma GoodIsSome(sizing: bool, max: nat, a: Output, b: Output, x: Option<Bytes>)
    requires Effect(sizing, max, a, b, x, Good)
    ensures x.Some?
  {
  }

  lemma EffectNothing(sizing: bool, max: nat, a: Output)
    requires sizing || a.written <= max
    ensures Effect(sizing, max, a, a, Some([]), Good)
  {
    assert a.out + [] == a.out;
  }

  /** `pb_ostream_t`. */
  class OStream {
    const sizing: bool
    const maxSize: nat
    var out: Bytes
    var written: nat

    function Now(): Output
      reads this
    {
      Output(out, written)
    }

    ghost predicate Valid()
      reads this
    {
      sizing || written <= maxSize
    }

    /** Had this effect since the stream was `a`; a stream that still goes on is in order. */
    ghost predicate Did(a: Output, enc: Option<Bytes>, r: Outcome)
      reads this
    {
      Effect(sizing, maxSize, a, Now(), enc, r) && (r.Good? ==> Valid())
    }

    constructor Sizing()
      ensures sizing && Valid() && Now() == Output([], 0)
    {
      sizing, maxSize, out, written := true, 0, [], 0;
    }

    constructor FromBuffer(size: nat)
      ensures !sizing && maxSize == size && Valid() && Now() == Output([], 0)
    {
      sizing, maxSize, out, written := false, size, [], 0;
    }

    /** A stream that writes on in the same buffer, but not more than `size` bytes. */
    constructor Limited(buffer: Bytes, size: nat)
      ensures !sizing && maxSize == size && Valid() && Now() == Output(buffer, 0)
    {
      sizing, maxSize, out, written := false, size, buffer, 0;
    }

    /** `pb_write`. */
    method Write(buf: Bytes) returns (r: Outcome)
      requires Valid()
      modifies this
      ensures Did(old(Now()), Some(buf), r) && (r.Good? || (r.StreamFull? && Now() == old(Now())))
    {
      if |buf| > 0 && !sizing {
        if written + |buf| > maxSize {
          return StreamFull;
        }
        out := out + buf;
      }
      written := written + |buf|;
      if buf == [] {
        EffectNothing(sizing, maxSize, old(Now()));
      }
      return Good;
    }

    /** `pb_write` on a sizing stream, without the bytes. */
    method Count(size: nat)
      requires sizing
      modifies this
      ensures Now() == Output(old(out), old(written) + size)
    {
      written := written + size;
    }
  }

  // ---------- the encoder ----------

  method EncodeVarint(s: OStream, value: nat) returns (r: Outcome)
    requires s.Valid()
    modifies s
    ensures s.Did(old(s.Now()), Some(Varint(value)), r)
  {
    hide BufferRight;
    if value < 128 {
      r := s.Write([value as byte]);
      return;
    }
    BufferStart(value);
    hide Varint;
    var buffer: Bytes, v := [], value;
    while v > 0
      invariant BufferRight(value, buffer, v) && s.Valid() && s.Now() == old(s.Now())
    {
      BufferMore(value, buffer, v);
      buffer := buffer + [(v % 128 + 128) as byte];
      v := v / 128;
    }
    BufferDone(value, buffer);
    buffer := buffer[|buffer| - 1 := buffer[|buffer| - 1] - 128];
    r := s.Write(buffer);
  }

  /** The bytes written so far all announce another one; after the last, that bit is to be taken away. */
  ghost predicate BufferRight(value: nat, buffer: Bytes, v: nat) {
    if v > 0 then Varint(value) == buffer + Varint(v)
    else
      && buffer != [] && buffer[|buffer| - 1] >= 128
      && Varint(value) == buffer[..|buffer| - 1] + [buffer[|buffer| - 1] - 128]
  }

  lemma BufferStart(value: nat)
    requires value > 0
    ensures BufferRight(value, [], value)
  {
  }

  lemma BufferMore(value: nat, buffer: Bytes, v: nat)
    requires BufferRight(value, buffer, v) && v > 0
    ensures BufferRight(value, buffer + [(v % 128 + 128) as byte], v / 128)
  {
    var more := buffer + [(v % 128 + 128) as byte];
    if v < 128 {
      assert more[..|more| - 1] == buffer;
    } else {
      assert buffer + ([(v % 128 + 128) as byte] + Varint(v / 128)) == more + Varint(v / 128);
    }
  }

  lemma BufferDone(value: nat, buffer: Bytes)
    requires BufferRight(value, buffer, 0)
    ensures buffer != [] && buffer[|buffer| - 1] >= 128
    ensures buffer[|buffer| - 1 := buffer[|buffer| - 1] - 128] == Varint(value)
  {
  }

  method EncodeString(s: OStream, bytes: Bytes) returns (r: Outcome)
    requires s.Valid()
    modifies s
    ensures s.Did(old(s.Now()), Some(PutSlice(bytes)), r)
  {
    hide Varint;
    ghost var a := s.Now();
    r := EncodeVarint(s, |bytes|);
    if !r.Good? {
      EffectStop(s.sizing, s.maxSize, a, s.Now(), Some(Varint(|bytes|)), Some(bytes), r);
      return;
    }
    ghost var b := s.Now();
    r := s.Write(bytes);
    EffectJoin(s.sizing, s.maxSize, a, b, s.Now(), Some(Varint(|bytes|)), Some(bytes), r);
  }

  method EncodeTag(s: OStream, tag: nat, wireType: nat) returns (r: Outcome)
    requires s.Valid()
    modifies s
    ensures s.Did(old(s.Now()), Some(TagBytes(tag, wireType)), r)
  {
    r := EncodeVarint(s, tag * 8 + wireType);
  }

  lemma TypedNumber(k: Kind, v: Value)
    requires Typed(k, v) && Packable(k) && !k.Bool?
    ensures v.Number? && -TWO63 <= v.n < TWO64
    ensures !k.UInt? && !k.Fixed8? ==> v.n < TWO63 || k.Fixed4?
    ensures k.SInt? ==> ZigZag(v.n) < TWO64
  {
  }

  method EncodeOne(s: OStream, k: Kind, v: Value) returns (r: Outcome)
    requires s.Valid() && Typed(k, v)
    modifies s
    ensures s.Did(old(s.Now()), EncodeValue(k, v), r)
    decreases k, 0, 0
  {
    match k
    case Bool => r := EncodeVarint(s, if v.b then 1 else 0);
    case Int(_) => TypedNumber(k, v); r := EncodeVarint(s, ToUnsigned(v.n));
    case UInt(_) => TypedNumber(k, v); r := EncodeVarint(s, v.n);
    case SInt(_) => TypedNumber(k, v); r := EncodeVarint(s, ZigZag(v.n));
    case Fixed4 => r := s.Write(Fixed32(v.n));
    case Fixed8 => r := s.Write(Fixed64(v.n));
    case ByteArray(capacity) =>
      if |v.bytes| > capacity {
        return BytesTooLong;
      }
      r := EncodeString(s, v.bytes);
    case Text(_) => r := EncodeString(s, v.bytes);
    case FixedBytes(_) => r := EncodeString(s, v.bytes);
    case Sub(ms) => r := EncodeSubmessage(s, ms, v.slots);
  }

  /** A tag and a value. */
  method EncodeTaggedOne(s: OStream, tag: nat, k: Kind, v: Value) returns (r: Outcome)
    requires s.Valid() && Typed(k, v)
    modifies s
    ensures s.Did(old(s.Now()), EncodeTagged(tag, k, v), r)
    decreases k, 1, 0
  {
    hide Typed, EncodeValue, TagBytes, Effect;
    ghost var a := s.Now();
    r := EncodeTag(s, tag, WireType(k));
    if !r.Good? {
      EffectStop(s.sizing, s.maxSize, a, s.Now(), Some(TagBytes(tag, WireType(k))), EncodeValue(k, v), r);
      return;
    }
    ghost var b := s.Now();
    r := EncodeOne(s, k, v);
    EffectJoin(s.sizing, s.maxSize, a, b, s.Now(), Some(TagBytes(tag, WireType(k))), EncodeValue(k, v), r);
  }

  /** What was done in a loop up to item `i`, `rest` still to come. */
  ghost predicate Going(sizing: bool, max: nat, a: Output, b: Output, whole: Option<Bytes>, rest: Option<Bytes>) {
    exists done: Bytes :: Effect(sizing, max, a, b, Some(done), Good) && whole == Join(Some(done), rest)
  }

  lemma GoingStart(sizing: bool, max: nat, a: Output, whole: Option<Bytes>)
    requires sizing || a.written <= max
    ensures Going(sizing, max, a, a, whole, whole)
  {
    EffectNothing(sizing, max, a);
    assert whole.Some? ==> [] + whole.value == whole.value;
    assert whole == Join(Some([]), whole);
  }

  lemma GoingOn(sizing: bool, max: nat, a: Output, b: Output, c: Output, whole: Option<Bytes>, x: Option<Bytes>,
                rest: Option<Bytes>, r: Outcome)
    requires Going(sizing, max, a, b, whole, Join(x, rest)) && Effect(sizing, max, b, c, x, r)
    ensures r.Good? ==> Going(sizing, max, a, c, whole, rest)
    ensures !r.Good? ==> Effect(sizing, max, a, c, whole, r)
  {
    hide Effect;
    var done: Bytes :| Effect(sizing, max, a, b, Some(done), Good) && whole == Join(Some(done), Join(x, rest));
    EffectJoin(sizing, max, a, b, c, Some(done), x, r);
    assert whole == Join(Join(Some(done), x), rest) by {
      if x.Some? && rest.Some? {
        assert done + (x.value + rest.value) == done + x.value + rest.value;
      }
    }
    if r.Good? {
      GoodIsSome(sizing, max, b, c, x);
      assert Join(Some(done), x) == Some(done + x.value);
    } else {
      EffectStop(sizing, max, a, c, Join(Some(done), x), rest, r);
    }
  }

  lemma GoingEnd(sizing: bool, max: nat, a: Output, b: Output, whole: Option<Bytes>)
    requires Going(sizing, max, a, b, whole, Some([]))
    ensures Effect(sizing, max, a, b, whole, Good)
  {
    var done: Bytes :| Effect(sizing, max, a, b, Some(done), Good) && whole == Join(Some(done), Some([]));
    assert done + [] == done;
  }

  /** Items of a packed array, to a sizing stream or for good. */
  method EncodeItemsTo(s: OStream, k: Kind, vs: seq<Value>) returns (r: Outcome)
    requires s.Valid() && TypedItems(k, vs)
    modifies s
    ensures s.Did(old(s.Now()), EncodeItems(k, vs, 0), r)
    decreases k, 2, 0
  {
    hide Effect, Going, EncodeValue, Typed;
    ghost var a, whole := s.Now(), EncodeItems(k, vs, 0);
    GoingStart(s.sizing, s.maxSize, a, whole);
    var i := 0;
    while i < |vs|
      invariant 0 <= i <= |vs| && s.Valid()
      invariant Going(s.sizing, s.maxSize, a, s.Now(), whole, EncodeItems(k, vs, i))
    {
      ghost var b := s.Now();
      r := EncodeOne(s, k, vs[i]);
      GoingOn(s.sizing, s.maxSize, a, b, s.Now(), whole, EncodeValue(k, vs[i]), EncodeItems(k, vs, i + 1), r);
      if !r.Good? {
        return;
      }
      i := i + 1;
    }
    GoingEnd(s.sizing, s.maxSize, a, s.Now(), whole);
    r := Good;
  }

  /** Items with a tag each. */
  method EncodeEachTo(s: OStream, tag: nat, k: Kind, vs: seq<Value>) returns (r: Outcome)
    requires s.Valid() && TypedItems(k, vs)
    modifies s
    ensures s.Did(old(s.Now()), EncodeEach(tag, k, vs, 0), r)
    decreases k, 2, 0
  {
    hide Effect, Going, EncodeTagged, Typed;
    ghost var a, whole := s.Now(), EncodeEach(tag, k, vs, 0);
    GoingStart(s.sizing, s.maxSize, a, whole);
    var i := 0;
    while i < |vs|
      invariant 0 <= i <= |vs| && s.Valid()
      invariant Going(s.sizing, s.maxSize, a, s.Now(), whole, EncodeEach(tag, k, vs, i))
    {
      ghost var b := s.Now();
      r := EncodeTaggedOne(s, tag, k, vs[i]);
      GoingOn(s.sizing, s.maxSize, a, b, s.Now(), whole, EncodeTagged(tag, k, vs[i]), EncodeEach(tag, k, vs, i + 1), r);
      if !r.Good? {
        return;
      }
      i := i + 1;
    }
    GoingEnd(s.sizing, s.maxSize, a, s.Now(), whole);
    r := Good;
  }

  /** Packed items are always encoded, and fixed-size ones take the size that is computed for them. */
  lemma {:induction false} PackedSize(k: Kind, vs: seq<Value>, i: nat)
    requires TypedItems(k, vs) && Packable(k) && i <= |vs|
    ensures EncodeItems(k, vs, i).Some?
    ensures k.Fixed4? ==> |EncodeItems(k, vs, i).value| == 4 * (|vs| - i)
    ensures k.Fixed8? ==> |EncodeItems(k, vs, i).value| == 8 * (|vs| - i)
    decreases |vs| - i
  {
    if i < |vs| {
      PackedSize(k, vs, i + 1);
    }
  }

  /** The size of a packed array, computed or measured. */
  method MeasureItems(k: Kind, vs: seq<Value>) returns (size: nat)
    requires TypedItems(k, vs) && Packable(k)
    ensures EncodeItems(k, vs, 0).Some? && size == |EncodeItems(k, vs, 0).value|
    decreases k, 3, 0
  {
    PackedSize(k, vs, 0);
    if k.Fixed4? {
      size := 4 * |vs|;
    } else if k.Fixed8? {
      size := 8 * |vs|;
    } else {
      var sizing := new OStream.Sizing();
      var r := EncodeItemsTo(sizing, k, vs);
      size := sizing.written;
    }
  }

  /** `encode_array`. */
  method EncodeArray(s: OStream, m: Member, vs: seq<Value>) returns (r: Outcome)
    requires s.Valid() && m.Repeated? && TypedItems(m.kind, vs)
    modifies s
    ensures TypedSlot(m, Many(vs)) && s.Did(old(s.Now()), EncodeSlot(m, Many(vs)), r)
    decreases m, 0, 0
  {
    hide Typed, EncodeItems, EncodeEach, TagBytes, Effect;
    var k := m.kind;
    ghost var a := s.Now();
    if |vs| == 0 {
      EffectNothing(s.sizing, s.maxSize, a);
      return Good;
    }
    if |vs| > m.max {
      EffectNone(s.sizing, s.maxSize, a, ArrayTooLong);
      return ArrayTooLong;
    }
    if Packable(k) {
      var size := MeasureItems(k, vs);
      ghost var body := EncodeItems(k, vs, 0).value;
      ghost var tag, length := Some(TagBytes(m.tag, 2)), Some(Varint(size));
      assert Join(tag, Prefixed(Some(body))) == Join(Join(tag, length), Some(body)) by {
        Regrouped(tag.value, length.value, body);
      }
      r := EncodeTagAndLength(s, m.tag, size);
      if !r.Good? {
        EffectStop(s.sizing, s.maxSize, a, s.Now(), Join(tag, length), Some(body), r);
        return;
      }
      ghost var b := s.Now();
      if s.sizing {
        s.Count(size);
        Counted(b, s.Now(), s.maxSize, body);
      } else {
        r := EncodeItemsTo(s, k, vs);
      }
      EffectJoin(s.sizing, s.maxSize, a, b, s.Now(), Join(tag, length), Some(body), r);
    } else {
      r := EncodeEachTo(s, m.tag, k, vs);
    }
  }

  lemma Regrouped(a: Bytes, b: Bytes, c: Bytes)
    ensures a + (b + c) == a + b + c
  {
  }

  lemma EffectNone(sizing: bool, max: nat, a: Output, r: Outcome)
    requires r.ArrayTooLong? || r.BytesTooLong?
    ensures Effect(sizing, max, a, a, None, r)
  {
  }

  lemma Counted(a: Output, b: Output, max: nat, body: Bytes)
    requires b == Output(a.out, a.written + |body|)
    ensures Effect(true, max, a, b, Some(body), Good)
  {
  }

  method EncodeTagAndLength(s: OStream, tag: nat, size: nat) returns (r: Outcome)
    requires s.Valid()
    modifies s
    ensures s.Did(old(s.Now()), Join(Some(TagBytes(tag, 2)), Some(Varint(size))), r)
  {
    hide TagBytes, Varint, Effect;
    ghost var a := s.Now();
    r := EncodeTag(s, tag, 2);
    if !r.Good? {
      EffectStop(s.sizing, s.maxSize, a, s.Now(), Some(TagBytes(tag, 2)), Some(Varint(size)), r);
      return;
    }
    ghost var b := s.Now();
    r := EncodeVarint(s, size);
    EffectJoin(s.sizing, s.maxSize, a, b, s.Now(), Some(TagBytes(tag, 2)), Some(Varint(size)), r);
  }

  /** The fields of a oneof, one after another: that of the alternative present is written. */
  method EncodeOneOf(s: OStream, os: seq<Choice>, which: nat, v: Value) returns (r: Outcome)
    requires s.Valid() && forall i :: 0 <= i < |os| && os[i].tag == which ==> Typed(os[i].kind, v)
    modifies s
    ensures s.Did(old(s.Now()), EncodeOptions(os, which, v, 0), r)
    decreases os, 0, 0
  {
    hide Effect, Going, Typed, EncodeTagged;
    ghost var a, whole := s.Now(), EncodeOptions(os, which, v, 0);
    GoingStart(s.sizing, s.maxSize, a, whole);
    var j := 0;
    while j < |os|
      invariant 0 <= j <= |os| && s.Valid()
      invariant Going(s.sizing, s.maxSize, a, s.Now(), whole, EncodeOptions(os, which, v, j))
    {
      ghost var b, x := s.Now(), if os[j].tag == which then EncodeOption(os[j], v) else Some([]);
      r := Good;
      if os[j].tag == which {
        r := EncodeOptionTo(s, os[j], v);
      } else {
        EffectNothing(s.sizing, s.maxSize, b);
      }
      GoingOn(s.sizing, s.maxSize, a, b, s.Now(), whole, x, EncodeOptions(os, which, v, j + 1), r);
      if !r.Good? {
        return;
      }
      j := j + 1;
    }
    GoingEnd(s.sizing, s.maxSize, a, s.Now(), whole);
    r := Good;
  }

  method EncodeOptionTo(s: OStream, o: Choice, v: Value) returns (r: Outcome)
    requires s.Valid() && Typed(o.kind, v)
    modifies s
    ensures s.Did(old(s.Now()), EncodeOption(o, v), r)
    decreases o, 0, 0
  {
    r := EncodeTaggedOne(s, o.tag, o.kind, v);
  }

  /** `encode_basic_field`. */
  method EncodeField(s: OStream, m: Member, slot: Slot) returns (r: Outcome)
    requires s.Valid() && TypedSlot(m, slot)
    modifies s
    ensures s.Did(old(s.Now()), EncodeSlot(m, slot), r)
    decreases m, 1, 0
  {
    hide Effect, EncodeTagged, EncodeOptions, Typed;
    EffectNothing(s.sizing, s.maxSize, s.Now());
    match m
    case Required(tag, k, _) => r := EncodeTaggedOne(s, tag, k, slot.v);
    case Optional(tag, k, _) =>
      if !slot.has {
        return Good;
      }
      r := EncodeTaggedOne(s, tag, k, slot.v);
    case Singular(tag, k) =>
      if IsZero(k, slot.v) {
        return Good;
      }
      r := EncodeTaggedOne(s, tag, k, slot.v);
    case Repeated(_, _, _) =>
      assert slot == Many(slot.items);
      r := EncodeArray(s, m, slot.items);
    case OneOf(os) => r := EncodeOneOf(s, os, slot.which, slot.v);
  }

  /** `pb_encode`: all fields in order. */
  method EncodeMessage(s: OStream, ms: seq<Member>, ss: seq<Slot>) returns (r: Outcome)
    requires s.Valid() && TypedAll(ms, ss)
    modifies s
    ensures s.Did(old(s.Now()), Encode(ms, ss), r)
    decreases ms, 0, 0
  {
    hide Effect, Going, EncodeSlot, TypedSlot;
    ghost var a, whole := s.Now(), Encode(ms, ss);
    GoingStart(s.sizing, s.maxSize, a, whole);
    var i := 0;
    while i < |ms|
      invariant 0 <= i <= |ms| && s.Valid()
      invariant Going(s.sizing, s.maxSize, a, s.Now(), whole, EncodeFrom(ms, ss, i))
    {
      ghost var b := s.Now();
      r := EncodeField(s, ms[i], ss[i]);
      GoingOn(s.sizing, s.maxSize, a, b, s.Now(), whole, EncodeSlot(ms[i], ss[i]), EncodeFrom(ms, ss, i + 1), r);
      if !r.Good? {
        return;
      }
      i := i + 1;
    }
    GoingEnd(s.sizing, s.maxSize, a, s.Now(), whole);
    r := Good;
  }

  /** `pb_encode_submessage`: a sizing pass, the size, and the message through a stream limited to that size.  The
      check that the size did not change never fails. */
  method EncodeSubmessage(s: OStream, ms: seq<Member>, ss: seq<Slot>) returns (r: Outcome)
    requires s.Valid() && TypedAll(ms, ss)
    modifies s
    ensures s.Did(old(s.Now()), Prefixed(Encode(ms, ss)), r)
    decreases ms, 1, 0
  {
    hide TypedAll, Encode;
    ghost var a, enc := s.Now(), Encode(ms, ss);
    var sizing := new OStream.Sizing();
    r := EncodeMessage(sizing, ms, ss);
    if !r.Good? {
      return;
    }
    var size := sizing.written;
    r := EncodeVarint(s, size);
    if !r.Good? {
      EffectStop(s.sizing, s.maxSize, a, s.Now(), Some(Varint(size)), enc, r);
      return;
    }
    ghost var b := s.Now();
    if s.sizing {
      s.Count(size);
      EffectJoin(s.sizing, s.maxSize, a, b, s.Now(), Some(Varint(size)), enc, Good);
      return;
    }
    if s.written + size > s.maxSize {
      r := StreamFull;
      EffectJoin(s.sizing, s.maxSize, a, b, s.Now(), Some(Varint(size)), enc, r);
      return;
    }
    var sub := new OStream.Limited(s.out, size);
    r := EncodeMessage(sub, ms, ss);
    s.written := s.written + sub.written;
    s.out := sub.out;
    if sub.written != size {
      return SizeChanged;
    }
    EffectJoin(s.sizing, s.maxSize, a, b, s.Now(), Some(Varint(size)), enc, r);
  }

  /** `pb_get_encoded_size`. */
  method GetEncodedSize(ms: seq<Member>, ss: seq<Slot>) returns (size: Option<nat>)
    requires TypedAll(ms, ss)
    ensures size == if Encode(ms, ss).Some? then Some(|Encode(ms, ss).value|) else None
  {
    var s := new OStream.Sizing();
    var r := EncodeMessage(s, ms, ss);
    size := if r.Good? then Some(s.written) else None;
  }
}
