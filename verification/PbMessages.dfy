/** Message descriptors and the structs they describe (nanopb/pb.h, nanopb/pb_common.c), for statically allocated
    fields without callbacks and extensions.

    A struct is a sequence of slots, one for each member of the message; the alternatives of a oneof share a slot.
    Static submessages are embedded by value, so descriptors are finite trees. */
module PbMessages {
  import opened InternalKeys
  import opened Masking
  import opened Coding
  import opened PbWire

  /** The type of a field: LTYPE and data_size, the latter in bytes. */
  datatype Kind =
    | Bool
    | Int(size: nat)
    | UInt(size: nat)
    | SInt(size: nat)
    | Fixed4
    | Fixed8
    | ByteArray(capacity: nat)
    | Text(capacity: nat)
    | FixedBytes(length: nat)
    | Sub(members: seq<Member>)

  /** A field with its HTYPE; `init` is the default the descriptor names.  `Singular` is an optional field without
      a `has` flag, as proto3 has them. */
  datatype Member =
    | Required(tag: nat, kind: Kind, init: Value)
    | Optional(tag: nat, kind: Kind, init: Value)
    | Singular(tag: nat, kind: Kind)
    | Repeated(tag: nat, kind: Kind, max: nat)
    | OneOf(options: seq<Choice>)

  datatype Choice = Choice(tag: nat, kind: Kind)

  /** A text is what stands in front of its terminator, or all of a full buffer. */
  datatype Value = Flag(b: bool) | Number(n: int) | Data(bytes: Bytes) | Message(slots: seq<Slot>)

  /** A repeated field has its count of items; of a oneof `which` is the tag of the alternative present, or 0. */
  datatype Slot = One(v: Value) | Maybe(has: bool, v: Value) | Many(items: seq<Value>) | Which(which: nat, v: Value)

  // ---------- what a struct can hold ----------

  /** One more than the largest unsigned number of `size` bytes. */
  function Range(size: nat): nat {
    match size
    case 1 => 0x100
    case 2 => 0x1_0000
    case 4 => TWO32
    case 8 => TWO64
    case _ => 0
  }

  predicate SignedFits(n: int, size: nat) {
    -(Range(size) as int) <= 2 * n < Range(size)
  }

  predicate Leaf(k: Kind, v: Value) {
    match k
    case Bool => v.Flag?
    case Int(size) => v.Number? && SignedFits(v.n, size)
    case UInt(size) => v.Number? && 0 <= v.n < Range(size)
    case SInt(size) => v.Number? && SignedFits(v.n, size)
    case Fixed4 => v.Number? && 0 <= v.n < TWO32
    case Fixed8 => v.Number? && 0 <= v.n < TWO64
    case ByteArray(_) => v.Data? && |v.bytes| < TWO32
    case Text(capacity) => v.Data? && |v.bytes| <= capacity && 0 !in v.bytes
    case FixedBytes(length) => v.Data? && |v.bytes| == length
    case Sub(_) => false
  }

  predicate Typed(k: Kind, v: Value)
    decreases k, 0
  {
    if k.Sub? then v.Message? && TypedAll(k.members, v.slots) else Leaf(k, v)
  }

  predicate TypedAll(ms: seq<Member>, ss: seq<Slot>)
    decreases ms, 0
  {
    |ms| == |ss| && forall i :: 0 <= i < |ms| ==> TypedSlot(ms[i], ss[i])
  }

  predicate TypedSlot(m: Member, s: Slot)
    decreases m, 0
  {
    match m
    case Required(_, k, _) => s.One? && Typed(k, s.v)
    case Optional(_, k, _) => s.Maybe? && Typed(k, s.v)
    case Singular(_, k) => s.One? && Typed(k, s.v)
    case Repeated(_, k, _) => s.Many? && forall i :: 0 <= i < |s.items| ==> Typed(k, s.items[i])
    case OneOf(os) =>
      && s.Which? && (s.which == 0 || exists j :: 0 <= j < |os| && os[j].tag == s.which)
      && forall j :: 0 <= j < |os| && os[j].tag == s.which ==> Typed(os[j].kind, s.v)
  }

  // ---------- equal structs, up to the contents of absent fields ----------

  ghost predicate Same(k: Kind, v: Value, w: Value)
    decreases k, 0
  {
    if k.Sub? then v.Message? && w.Message? && SameAll(k.members, v.slots, w.slots) else v == w
  }

  ghost predicate SameAll(ms: seq<Member>, ss: seq<Slot>, ts: seq<Slot>)
    decreases ms, 0
  {
    |ss| == |ms| == |ts| && forall i :: 0 <= i < |ms| ==> SameSlot(ms[i], ss[i], ts[i])
  }

  ghost predicate SameItems(k: Kind, vs: seq<Value>, ws: seq<Value>)
    decreases k, 1
  {
    |vs| == |ws| && forall i :: 0 <= i < |vs| ==> Same(k, vs[i], ws[i])
  }

  ghost predicate SameSlot(m: Member, s: Slot, t: Slot)
    decreases m, 0
  {
    match m
    case Required(_, k, _) => s.One? && t.One? && Same(k, s.v, t.v)
    case Optional(_, k, _) => s.Maybe? && t.Maybe? && s.has == t.has && (s.has ==> Same(k, s.v, t.v))
    case Singular(_, k) => s.One? && t.One? && Same(k, s.v, t.v)
    case Repeated(_, k, _) => s.Many? && t.Many? && SameItems(k, s.items, t.items)
    case OneOf(os) =>
      && s.Which? && t.Which? && s.which == t.which
      && forall j :: 0 <= j < |os| && os[j].tag == s.which && s.which != 0 ==> Same(os[j].kind, s.v, t.v)
  }

  // ---------- defaults ----------

  function ZeroBytes(n: nat): (z: Bytes)
    ensures |z| == n
  {
    seq(n, _ => 0)
  }

  function ZeroOf(k: Kind): Value
    requires !k.Sub?
  {
    match k
    case Bool => Flag(false)
    case ByteArray(_) => Data([])
    case Text(_) => Data([])
    case FixedBytes(n) => Data(ZeroBytes(n))
    case _ => Number(0)
  }

  /** What `pb_field_set_to_default` puts into a field that has no default of its own. */
  function DefaultOf(k: Kind): Value
    decreases k, 0
  {
    if k.Sub? then Message(Defaults(k.members)) else ZeroOf(k)
  }

  function InitOf(k: Kind, init: Value): Value
    decreases k, 1
  {
    if k.Sub? then DefaultOf(k) else init
  }

  /** `pb_message_set_to_defaults`. */
  function Defaults(ms: seq<Member>): (ss: seq<Slot>)
    ensures |ss| == |ms|
    ensures forall i :: 0 <= i < |ms| ==> ss[i] == DefaultSlot(ms[i])
    decreases ms, 0
  {
    seq(|ms|, i requires 0 <= i < |ms| => DefaultSlot(ms[i]))
  }

  function DefaultSlot(m: Member): Slot
    decreases m, 0
  {
    match m
    case Required(_, k, init) => One(InitOf(k, init))
    case Optional(_, k, init) => Maybe(false, InitOf(k, init))
    case Singular(_, k) => One(DefaultOf(k))
    case Repeated(_, _, _) => Many([])
    case OneOf(_) => Which(0, Flag(false))
  }

  /** `pb_check_proto3_default_value`: a field without `has` flag is not written if all it holds is zero. */
  predicate IsZero(k: Kind, v: Value)
    requires Typed(k, v)
    decreases k, 0
  {
    match k
    case Bool => !v.b
    case ByteArray(_) => v.bytes == []
    case Text(_) => v.bytes == []
    case FixedBytes(length) => length == 0
    case Sub(ms) => (assert TypedAll(ms, v.slots); forall i :: 0 <= i < |ms| ==> IsZeroSlot(ms[i], v.slots[i]))
    case _ => v.n == 0
  }

  predicate IsZeroSlot(m: Member, s: Slot)
    requires TypedSlot(m, s)
    decreases m, 0
  {
    match m
    case Required(_, _, _) => false
    case Optional(_, _, _) => !s.has
    case Singular(_, k) => IsZero(k, s.v)
    case Repeated(_, _, _) => s.items == []
    case OneOf(os) => os == [] || s.which == 0
  }

  // ---------- well-formed descriptors ----------

  predicate HasTag(m: Member, tag: nat) {
    if m.OneOf? then exists j :: 0 <= j < |m.options| && m.options[j].tag == tag else m.tag == tag
  }

  predicate TagOk(tag: nat) {
    1 <= tag < TWO29
  }

  ghost predicate KindOk(k: Kind)
    decreases k, 0
  {
    match k
    case Int(size) => Range(size) > 0
    case UInt(size) => Range(size) > 0
    case SInt(size) => Range(size) > 0
    case ByteArray(capacity) => capacity < TWO32
    case Text(capacity) => capacity < TWO32
    case FixedBytes(length) => length < TWO32
    case Sub(ms) => SchemaOk(ms)
    case _ => true
  }

  /** Tags are in range and no two fields of a message share one. */
  ghost predicate SchemaOk(ms: seq<Member>)
    decreases ms, 0
  {
    && (forall i :: 0 <= i < |ms| ==> MemberOk(ms[i]))
    && (forall i, j, x :: 0 <= i < j < |ms| && HasTag(ms[i], x) ==> !HasTag(ms[j], x))
  }

  ghost predicate MemberOk(m: Member)
    decreases m, 0
  {
    match m
    case Required(tag, k, init) => TagOk(tag) && KindOk(k) && (!k.Sub? ==> Leaf(k, init))
    case Optional(tag, k, init) => TagOk(tag) && KindOk(k) && (!k.Sub? ==> Leaf(k, init))
    case Singular(tag, k) => TagOk(tag) && KindOk(k)
    case Repeated(tag, k, _) => TagOk(tag) && KindOk(k)
    case OneOf(os) =>
      && (forall j :: 0 <= j < |os| ==> TagOk(os[j].tag) && KindOk(os[j].kind))
      && (forall i, j :: 0 <= i < j < |os| ==> os[i].tag != os[j].tag)
  }

  // ---------- laws ----------

  lemma {:induction false} DefaultsTyped(ms: seq<Member>)
    requires SchemaOk(ms)
    ensures TypedAll(ms, Defaults(ms))
    decreases ms, 0
  {
    forall i | 0 <= i < |ms| ensures TypedSlot(ms[i], DefaultSlot(ms[i])) {
      DefaultSlotTyped(ms[i]);
    }
  }

  lemma {:induction false} DefaultTyped(k: Kind)
    requires KindOk(k)
    ensures Typed(k, DefaultOf(k))
    decreases k, 0
  {
    if k.Sub? {
      DefaultsTyped(k.members);
    }
  }

  lemma {:induction false} DefaultSlotTyped(m: Member)
    requires MemberOk(m)
    ensures TypedSlot(m, DefaultSlot(m))
    decreases m, 0
  {
    match m
    case Required(_, k, _) => DefaultTyped(k);
    case Optional(_, k, _) => DefaultTyped(k);
    case Singular(_, k) => DefaultTyped(k);
    case Repeated(_, _, _) =>
    case OneOf(_) =>
  }

  /** A zero struct is the default one, but for the contents of absent fields. */
  lemma {:induction false} ZeroIsDefault(k: Kind, v: Value)
    requires Typed(k, v) && IsZero(k, v)
    ensures Same(k, v, DefaultOf(k))
    decreases k, 0
  {
    if k.Sub? {
      forall i | 0 <= i < |k.members| ensures SameSlot(k.members[i], v.slots[i], DefaultSlot(k.members[i])) {
        assert IsZeroSlot(k.members[i], v.slots[i]);
        ZeroSlotIsDefault(k.members[i], v.slots[i]);
      }
    }
  }

  lemma {:induction false} ZeroSlotIsDefault(m: Member, s: Slot)
    requires TypedSlot(m, s) && IsZeroSlot(m, s)
    ensures SameSlot(m, s, DefaultSlot(m))
    decreases m, 0
  {
    if m.Singular? {
      ZeroIsDefault(m.kind, s.v);
    } else if m.OneOf? && m.options == [] {
      assert s.which == 0;
    }
  }

  /** Which types have a zero that is left out: not those with a required member, and no byte array of fixed length. */
  predicate HasZero(k: Kind)
    decreases k, 0
  {
    if k.Sub? then forall i :: 0 <= i < |k.members| ==> MemberHasZero(k.members[i]) else k.FixedBytes? ==> k.length == 0
  }

  predicate MemberHasZero(m: Member)
    decreases m, 0
  {
    !m.Required? && (m.Singular? ==> HasZero(m.kind))
  }

  /** And of those exactly the default value is zero. */
  lemma {:induction false} ZeroIff(k: Kind, v: Value)
    requires Typed(k, v)
    ensures IsZero(k, v) <==> HasZero(k) && Same(k, v, DefaultOf(k))
    decreases k, 0
  {
    if k.Sub? {
      assert TypedAll(k.members, v.slots);
      forall i | 0 <= i < |k.members|
        ensures IsZeroSlot(k.members[i], v.slots[i])
           <==> MemberHasZero(k.members[i]) && SameSlot(k.members[i], v.slots[i], DefaultSlot(k.members[i]))
      {
        ZeroSlotIff(k.members[i], v.slots[i]);
      }
    } else if k.FixedBytes? {
      assert k.length == 0 ==> v.bytes == ZeroBytes(0);
    }
  }

  lemma {:induction false} ZeroSlotIff(m: Member, s: Slot)
    requires TypedSlot(m, s)
    ensures IsZeroSlot(m, s) <==> MemberHasZero(m) && SameSlot(m, s, DefaultSlot(m))
    decreases m, 0
  {
    if m.Singular? {
      ZeroIff(m.kind, s.v);
    } else if m.OneOf? && m.options == [] {
      assert s.which == 0;
    }
  }
}
