/** Decoding a message into a struct (nanopb/pb_decode.c, nanopb/pb_common.c). */
module PbDecoding {
  import opened InternalKeys
  import opened Masking
  import opened Coding
  import opened PbWire
  import opened PbMessages
  import opened PbEncoding

  const MAX_REQUIRED: nat := 64

  datatype Read = Read(v: Value, rest: Bytes)

  /** What stands in front of the first zero byte. */
  function UpToZero(b: Bytes): (r: Bytes)
    ensures |r| <= |b| && 0 !in r
    ensures 0 !in b ==> r == b
  {
    if b == [] || b[0] == 0 then [] else [b[0]] + UpToZero(b[1..])
  }

  /** A length and that many bytes. */
  function Substream(s: Bytes): (r: Option<ParsedSlice>)
    ensures r.Some? ==> |r.value.rest| < |s| && |r.value.value| < TWO32
  {
    var n := Varint32(s);
    if n.None? || |n.value.rest| < n.value.value then None
    else Some(ParsedSlice(n.value.rest[..n.value.value], n.value.rest[n.value.value..]))
  }

  /** A signed number, if the field can hold it. */
  function Narrow(n: int, size: nat, rest: Bytes): Option<Read> {
    if SignedFits(n, size) then Some(Read(Number(n), rest)) else None
  }

  function ReadNumber(k: Kind, s: Bytes): (r: Option<Read>)
    requires k.Int? || k.UInt? || k.SInt?
    ensures r.Some? ==> |r.value.rest| < |s| && Leaf(k, r.value.v)
  {
    var p := GetVarint64(s);
    if p.None? then None
    else
      var v := p.value.value;
      match k
      case Int(size) => Narrow(if size == 8 then ToSigned(v) else ToSigned32(v), size, p.value.rest)
      case UInt(size) => if v < Range(size) then Some(Read(Number(v), p.value.rest)) else None
      case SInt(size) => Narrow(UnZigZag(v), size, p.value.rest)
  }

  /** A value that is no submessage. */
  function ReadLeaf(k: Kind, s: Bytes): (r: Option<Read>)
    requires !k.Sub?
    ensures r.Some? ==> |r.value.rest| < |s| && Leaf(k, r.value.v)
  {
    match k
    case Bool =>
      var p := Varint32(s);
      if p.None? then None else Some(Read(Flag(p.value.value != 0), p.value.rest))
    case Fixed4 => if |s| < 4 then None else Some(Read(Number(DecodeFixed32(s)), s[4..]))
    case Fixed8 => if |s| < 8 then None else Some(Read(Number(DecodeFixed64(s)), s[8..]))
    case ByteArray(capacity) =>
      var p := Substream(s);
      if p.None? || |p.value.value| > capacity then None else Some(Read(Data(p.value.value), p.value.rest))
    case Text(capacity) =>
      // one byte must be left for the terminator
      var p := Substream(s);
      if p.None? || |p.value.value| + 1 > capacity
        then None else Some(Read(Data(UpToZero(p.value.value)), p.value.rest))
    case FixedBytes(length) =>
      var p := Substream(s);
      if p.None? then None
      else if p.value.value == [] then Some(Read(Data(ZeroBytes(length)), p.value.rest))
      else if |p.value.value| != length then None
      else Some(Read(Data(p.value.value), p.value.rest))
    case Int(_) => ReadNumber(k, s)
    case UInt(_) => ReadNumber(k, s)
    case SInt(_) => ReadNumber(k, s)
  }

  /** A value; a submessage is decoded on top of what its struct holds. */
  function DecodeValue(k: Kind, dest: Value, s: Bytes): (r: Option<Read>)
    requires KindOk(k) && (k.Sub? ==> Typed(k, dest))
    ensures r.Some? ==> |r.value.rest| < |s| && Typed(k, r.value.v)
    decreases k, 0, 0
  {
    if k.Sub? then
      var p := Substream(s);
      if p.None? then None
      else
        var ss := DecodeNoInit(k.members, dest.slots, p.value.value);
        if ss.None? then None else Some(Read(Message(ss.value), p.value.rest))
    else ReadLeaf(k, s)
  }

  /** Packed items up to the end of `s`. */
  function DecodePacked(k: Kind, items: seq<Value>, max: nat, s: Bytes): (r: Option<seq<Value>>)
    requires !k.Sub? && TypedItems(k, items)
    ensures r.Some? ==> TypedItems(k, r.value)
    decreases |s|
  {
    if s == [] then Some(items)
    else if |items| >= max then None
    else
      var p := ReadLeaf(k, s);
      if p.None? then None else DecodePacked(k, items + [p.value.v], max, p.value.rest)
  }

  datatype ReadSlot = ReadSlot(slot: Slot, rest: Bytes)

  /** The first option with a tag. */
  function OptionIndex(os: seq<Choice>, tag: nat, j: nat): (r: nat)
    requires j <= |os|
    ensures j <= r <= |os|
    ensures forall i :: j <= i < r ==> os[i].tag != tag
    ensures r < |os| ==> os[r].tag == tag
    decreases |os| - j
  {
    if j == |os| || os[j].tag == tag then j else OptionIndex(os, tag, j + 1)
  }

  /** A field of member `m`, found by its tag. */
  function DecodeSlot(m: Member, s: Slot, tag: nat, wireType: nat, bytes: Bytes): (r: Option<ReadSlot>)
    requires MemberOk(m) && TypedSlot(m, s) && HasTag(m, tag)
    ensures r.Some? ==> |r.value.rest| < |bytes| && TypedSlot(m, r.value.slot)
    decreases m, 0, 0
  {
    match m
    case Required(_, k, _) =>
      var p := DecodeValue(k, s.v, bytes);
      if p.None? then None else Some(ReadSlot(One(p.value.v), p.value.rest))
    case Optional(_, k, _) =>
      var p := DecodeValue(k, s.v, bytes);
      if p.None? then None else Some(ReadSlot(Maybe(true, p.value.v), p.value.rest))
    case Singular(_, k) =>
      var p := DecodeValue(k, s.v, bytes);
      if p.None? then None else Some(ReadSlot(One(p.value.v), p.value.rest))
    case Repeated(_, k, max) =>
      if wireType == 2 && Packable(k) then
        var p := Substream(bytes);
        if p.None? then None
        else
          var items := DecodePacked(k, s.items, max, p.value.value);
          if items.None? then None else Some(ReadSlot(Many(items.value), p.value.rest))
      else if |s.items| >= max then None
      else
        DefaultTyped(k);
        var p := DecodeValue(k, DefaultOf(k), bytes);
        if p.None? then None else Some(ReadSlot(Many(s.items + [p.value.v]), p.value.rest))
    case OneOf(os) =>
      var o := os[OptionIndex(os, tag, 0)];
      DefaultTyped(o.kind);
      // a submessage of another alternative is cleared first
      var p := DecodeValue(o.kind, if s.which == tag then s.v else DefaultOf(o.kind), bytes);
      if p.None? then None else Some(ReadSlot(Which(tag, p.value.v), p.value.rest))
  }

  /** The member with a tag, from the `i`-th on. */
  function MemberIndex(ms: seq<Member>, tag: nat, i: nat): (r: nat)
    requires i <= |ms|
    ensures i <= r <= |ms|
    ensures forall j :: i <= j < r ==> !HasTag(ms[j], tag)
    ensures r < |ms| ==> HasTag(ms[r], tag)
    decreases |ms| - i
  {
    if i == |ms| || HasTag(ms[i], tag) then i else MemberIndex(ms, tag, i + 1)
  }

  /** How many of the first `i` members are required. */
  function RequiredBefore(ms: seq<Member>, i: nat): nat
    requires i <= |ms|
  {
    if i == 0 then 0 else RequiredBefore(ms, i - 1) + (if ms[i - 1].Required? then 1 else 0)
  }

  /** Past a field that is not in the message. */
  function Skip(wireType: nat, s: Bytes): (r: Option<Bytes>)
    ensures r.Some? ==> |r.value| < |s|
  {
    match wireType
    case 0 => SkipVarint(s)
    case 1 => if |s| < 8 then None else Some(s[8..])
    case 2 => (var p := Substream(s); if p.None? then None else Some(p.value.rest))
    case 5 => if |s| < 4 then None else Some(s[4..])
    case _ => None
  }

  function SkipVarint(s: Bytes): (r: Option<Bytes>)
    ensures r.Some? ==> |r.value| < |s|
  {
    if s == [] then None else if s[0] < 128 then Some(s[1..]) else SkipVarint(s[1..])
  }

  /** A struct being filled, and which required fields were seen, by their number among the required ones. */
  datatype Progress = Progress(slots: seq<Slot>, seen: set<nat>)

  /** Fields until the bytes end or a zero tag comes; unknown fields are skipped. */
  function DecodeLoop(ms: seq<Member>, p: Progress, s: Bytes): (r: Option<Progress>)
    requires SchemaOk(ms) && TypedAll(ms, p.slots)
    ensures r.Some? ==> TypedAll(ms, r.value.slots)
    decreases ms, 1, |s|
  {
    if s == [] then Some(p)
    else
      var t := Varint32(s);
      if t.None? then None
      else if t.value.value == 0 then Some(p)
      else
        var tag, wireType, i := t.value.value / 8, t.value.value % 8, MemberIndex(ms, t.value.value / 8, 0);
        if i == |ms| then
          var rest := Skip(wireType, t.value.rest);
          if rest.None? then None else DecodeLoop(ms, p, rest.value)
        else
          var f := DecodeSlot(ms[i], p.slots[i], tag, wireType, t.value.rest);
          if f.None? then None
          else DecodeLoop(ms, Progress(p.slots[i := f.value.slot], Noted(ms, i, p.seen)), f.value.rest)
  }

  /** Only the first 64 required fields are kept track of. */
  function Noted(ms: seq<Member>, i: nat, seen: set<nat>): set<nat>
    requires i < |ms|
  {
    if ms[i].Required? && RequiredBefore(ms, i) < MAX_REQUIRED then seen + {RequiredBefore(ms, i)} else seen
  }

  predicate AllSeen(ms: seq<Member>, seen: set<nat>) {
    var count := RequiredBefore(ms, |ms|);
    forall j :: 0 <= j < (if count < MAX_REQUIRED then count else MAX_REQUIRED) ==> j in seen
  }

  /** `pb_decode_noinit`. */
  function DecodeNoInit(ms: seq<Member>, ss: seq<Slot>, s: Bytes): (r: Option<seq<Slot>>)
    requires SchemaOk(ms) && TypedAll(ms, ss)
    ensures r.Some? ==> TypedAll(ms, r.value)
    decreases ms, 2, 0
  {
    var p := DecodeLoop(ms, Progress(ss, {}), s);
    if p.None? || !AllSeen(ms, p.value.seen) then None else Some(p.value.slots)
  }

  /** `pb_decode`. */
  function Decode(ms: seq<Member>, s: Bytes): (r: Option<seq<Slot>>)
    requires SchemaOk(ms)
    ensures r.Some? ==> TypedAll(ms, r.value)
  {
    DefaultsTyped(ms);
    DecodeNoInit(ms, Defaults(ms), s)
  }
}
