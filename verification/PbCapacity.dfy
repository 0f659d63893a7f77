/** Whatever the bytes say, a decoded struct stays within the arrays that its descriptor gives it
    (nanopb/pb_decode.c). */
module PbCapacity {
  import opened InternalKeys
  import opened Masking
  import opened Coding
  import opened PbWire
  import opened PbMessages
  import opened PbEncoding
  import opened PbDecoding

  // ---------- room ----------

  /** Byte arrays and repeated fields have no more than there is room for, in submessages too. */
  ghost predicate HasRoom(k: Kind, v: Value)
    requires Typed(k, v)
    decreases k, 0
  {
    if k.Sub? then AllHaveRoom(k.members, v.slots) else k.ByteArray? ==> |v.bytes| <= k.capacity
  }

  ghost predicate AllHaveRoom(ms: seq<Member>, ss: seq<Slot>)
    requires TypedAll(ms, ss)
    decreases ms, 0
  {
    forall i :: 0 <= i < |ms| ==> SlotHasRoom(ms[i], ss[i])
  }

  ghost predicate SlotHasRoom(m: Member, s: Slot)
    requires TypedSlot(m, s)
    decreases m, 0
  {
    match m
    case Required(_, k, _) => HasRoom(k, s.v)
    case Optional(_, k, _) => HasRoom(k, s.v)
    case Singular(_, k) => HasRoom(k, s.v)
    case Repeated(_, k, max) => |s.items| <= max && forall i :: 0 <= i < |s.items| ==> HasRoom(k, s.items[i])
    case OneOf(os) => forall j :: 0 <= j < |os| && os[j].tag == s.which ==> HasRoom(os[j].kind, s.v)
  }

  /** The defaults that a descriptor names have room. */
  ghost predicate KindRoomy(k: Kind)
    decreases k, 0
  {
    k.Sub? ==> SchemaRoomy(k.members)
  }

  ghost predicate SchemaRoomy(ms: seq<Member>)
    decreases ms, 0
  {
    forall i :: 0 <= i < |ms| ==> MemberRoomy(ms[i])
  }

  ghost predicate MemberRoomy(m: Member)
    decreases m, 0
  {
    match m
    case Required(_, k, init) => KindRoomy(k) && (k.ByteArray? && init.Data? ==> |init.bytes| <= k.capacity)
    case Optional(_, k, init) => KindRoomy(k) && (k.ByteArray? && init.Data? ==> |init.bytes| <= k.capacity)
    case Singular(_, k) => KindRoomy(k)
    case Repeated(_, k, _) => KindRoomy(k)
    case OneOf(os) => forall j :: 0 <= j < |os| ==> KindRoomy(os[j].kind)
  }

  lemma {:induction false} DefaultsHaveRoom(ms: seq<Member>)
    requires SchemaOk(ms) && SchemaRoomy(ms)
    ensures TypedAll(ms, Defaults(ms)) && AllHaveRoom(ms, Defaults(ms))
    decreases ms, 0
  {
    DefaultsTyped(ms);
    forall i | 0 <= i < |ms| ensures SlotHasRoom(ms[i], Defaults(ms)[i]) {
      DefaultSlotHasRoom(ms[i]);
    }
  }

  lemma {:induction false} DefaultHasRoom(k: Kind)
    requires KindOk(k) && KindRoomy(k)
    ensures Typed(k, DefaultOf(k)) && HasRoom(k, DefaultOf(k))
    decreases k, 0
  {
    DefaultTyped(k);
    if k.Sub? {
      DefaultsHaveRoom(k.members);
    }
  }

  lemma {:induction false} DefaultSlotHasRoom(m: Member)
    requires MemberOk(m) && MemberRoomy(m)
    ensures TypedSlot(m, DefaultSlot(m)) && SlotHasRoom(m, DefaultSlot(m))
    decreases m, 0
  {
    DefaultSlotTyped(m);
    match m
    case Required(_, k, _) => DefaultHasRoom(k);
    case Optional(_, k, _) => DefaultHasRoom(k);
    case Singular(_, k) => DefaultHasRoom(k);
    case Repeated(_, _, _) =>
    case OneOf(_) =>
  }

  // ---------- decoding keeps it ----------

  lemma {:induction false} PackedHasRoom(k: Kind, items: seq<Value>, max: nat, s: Bytes)
    requires Packable(k) && TypedItems(k, items) && |items| <= max && DecodePacked(k, items, max, s).Some?
    ensures |DecodePacked(k, items, max, s).value| <= max
    decreases |s|
  {
    hide ReadLeaf, Leaf;
    if s != [] {
      var p := ReadLeaf(k, s).value;
      PackedHasRoom(k, items + [p.v], max, p.rest);
    }
  }

  lemma ScalarsHaveRoom(k: Kind, items: seq<Value>)
    requires Packable(k) && TypedItems(k, items)
    ensures forall i :: 0 <= i < |items| ==> HasRoom(k, items[i])
  {
  }

  lemma {:induction false} ValueHasRoom(k: Kind, dest: Value, s: Bytes)
    requires KindOk(k) && KindRoomy(k) && (k.Sub? ==> Typed(k, dest) && HasRoom(k, dest))
    requires DecodeValue(k, dest, s).Some?
    ensures HasRoom(k, DecodeValue(k, dest, s).value.v)
    decreases k, 0, 0
  {
    hide Substream, DecodeNoInit, AllHaveRoom, SchemaOk, TypedAll;
    if k.Sub? {
      MessageHasRoom(k.members, dest.slots, Substream(s).value.value);
    }
  }

  lemma {:induction false} FieldHasRoom(m: Member, slot: Slot, tag: nat, wireType: nat, s: Bytes)
    requires MemberOk(m) && MemberRoomy(m) && TypedSlot(m, slot) && SlotHasRoom(m, slot) && HasTag(m, tag)
    requires DecodeSlot(m, slot, tag, wireType, s).Some?
    ensures SlotHasRoom(m, DecodeSlot(m, slot, tag, wireType, s).value.slot)
    decreases m, 0, 0
  {
    hide DecodeValue, Substream, DecodePacked, Typed, KindOk, DefaultOf, HasRoom, KindRoomy;
    match m
    case Required(_, k, _) => ValueHasRoom(k, slot.v, s);
    case Optional(_, k, _) => ValueHasRoom(k, slot.v, s);
    case Singular(_, k) => ValueHasRoom(k, slot.v, s);
    case Repeated(_, k, max) =>
      if wireType == 2 && Packable(k) {
        var body := Substream(s).value.value;
        PackedHasRoom(k, slot.items, max, body);
        ScalarsHaveRoom(k, DecodePacked(k, slot.items, max, body).value);
      } else {
        DefaultHasRoom(k);
        ValueHasRoom(k, DefaultOf(k), s);
      }
    case OneOf(os) =>
      var j := OptionIndex(os, tag, 0);
      DefaultHasRoom(os[j].kind);
      ValueHasRoom(os[j].kind, if slot.which == tag then slot.v else DefaultOf(os[j].kind), s);
  }

  lemma {:induction false} LoopHasRoom(ms: seq<Member>, p: Progress, s: Bytes)
    requires SchemaOk(ms) && SchemaRoomy(ms) && TypedAll(ms, p.slots) && AllHaveRoom(ms, p.slots)
    requires DecodeLoop(ms, p, s).Some?
    ensures AllHaveRoom(ms, DecodeLoop(ms, p, s).value.slots)
    decreases ms, 1, |s|
  {
    hide Varint32, DecodeSlot, Skip, MemberIndex, Noted, MemberOk, TypedSlot, HasTag, SlotHasRoom, MemberRoomy;
    if s != [] && Varint32(s).value.value != 0 {
      var t := Varint32(s).value;
      var tag, wireType, i := t.value / 8, t.value % 8, MemberIndex(ms, t.value / 8, 0);
      if i == |ms| {
        LoopHasRoom(ms, p, Skip(wireType, t.rest).value);
      } else {
        FieldHasRoom(ms[i], p.slots[i], tag, wireType, t.rest);
        var f := DecodeSlot(ms[i], p.slots[i], tag, wireType, t.rest).value;
        LoopHasRoom(ms, Progress(p.slots[i := f.slot], Noted(ms, i, p.seen)), f.rest);
      }
    }
  }

  lemma {:induction false} MessageHasRoom(ms: seq<Member>, ss: seq<Slot>, s: Bytes)
    requires SchemaOk(ms) && SchemaRoomy(ms) && TypedAll(ms, ss) && AllHaveRoom(ms, ss)
    requires DecodeNoInit(ms, ss, s).Some?
    ensures AllHaveRoom(ms, DecodeNoInit(ms, ss, s).value)
    decreases ms, 2, 0
  {
    hide SchemaOk, TypedAll, AllHaveRoom, DecodeLoop, AllSeen;
    LoopHasRoom(ms, Progress(ss, {}), s);
  }

  /** For all bytes: a message that is decoded has no byte array longer than its capacity, and no repeated field with
      more items than its array, at any depth. */
  lemma DecodedHasRoom(ms: seq<Member>, s: Bytes)
    requires SchemaOk(ms) && SchemaRoomy(ms) && Decode(ms, s).Some?
    ensures AllHaveRoom(ms, Decode(ms, s).value)
  {
    hide SchemaOk, SchemaRoomy, TypedAll, AllHaveRoom, DecodeNoInit;
    DefaultsHaveRoom(ms);
    MessageHasRoom(ms, Defaults(ms), s);
  }

  // ---------- numbers ----------

  /** What becomes of any number in a field: any but zero is true; an unsigned or zigzag number is refused if the field
      cannot hold it; of a signed one the low 32 bits count, or all 64 in a field of eight bytes. */
  lemma NumbersRead(k: Kind, n: nat, more: Bytes)
    requires n < TWO64 && (k.Bool? ==> n < TWO32)
    ensures var r := if k.Sub? then None else ReadLeaf(k, Varint(n) + more);
            match k
            case Bool => r == Some(Read(Flag(n > 0), more))
            case UInt(size) => r == if n < Range(size) then Some(Read(Number(n), more)) else None
            case SInt(size) =>
              var z := if n % 2 == 0 then n / 2 else -((n + 1) / 2);
              r == if SignedFits(z, size) then Some(Read(Number(z), more)) else None
            case Int(size) =>
              var low := if size == 8 then n else n % 0x1_0000_0000;
              var z := if size == 8 then (if n < 0x8000_0000_0000_0000 then n else n - 0x1_0000_0000_0000_0000)
                       else if low < 0x8000_0000 then low else low - 0x1_0000_0000;
              r == if SignedFits(z, size) then Some(Read(Number(z), more)) else None
            case _ => true
  {
    hide Varint, Varint32, GetVarint64;
    Varint64RoundTrip(n, more);
    if k.Bool? {
      Varint32Reads(n, more);
    }
  }
}
