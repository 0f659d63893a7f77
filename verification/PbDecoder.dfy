/** The decoder: input streams, the field iterator and the decoding loop (nanopb/pb_decode.c, nanopb/pb_common.c). */
module PbDecoder {
  import opened InternalKeys
  import opened Masking
  import opened Coding
  import opened PbWire
  import opened PbMessages
  import opened PbEncoding
  import opened PbDecoding

  // ---------- the field iterator ----------

  /** An entry of the descriptor array, and the member it belongs to. */
  datatype FieldRef = FieldRef(tag: nat, required: bool, member: nat)

  function FieldsOf(m: Member, i: nat): seq<FieldRef> {
    if m.OneOf? then seq(|m.options|, j requires 0 <= j < |m.options| => FieldRef(m.options[j].tag, false, i))
    else [FieldRef(m.tag, m.Required?, i)]
  }

  /** The descriptor array of the first `n` members. */
  function Fields(ms: seq<Member>, n: nat): seq<FieldRef>
    requires n <= |ms|
  {
    if n == 0 then [] else Fields(ms, n - 1) + FieldsOf(ms[n - 1], n - 1)
  }

  function RequiredIn(fields: seq<FieldRef>, n: nat): nat
    requires n <= |fields|
  {
    if n == 0 then 0 else RequiredIn(fields, n - 1) + (if fields[n - 1].required then 1 else 0)
  }

  /** `pb_field_iter_t`: a position that wraps around, and the number of required fields before it. */
  class FieldIter {
    const fields: seq<FieldRef>
    var pos: nat
    var requiredIndex: nat

    ghost predicate Valid()
      reads this
    {
      pos <= |fields| && (fields != [] ==> pos < |fields|) && requiredIndex == RequiredIn(fields, pos)
    }

    constructor (fs: seq<FieldRef>)
      ensures Valid() && fields == fs && pos == 0
    {
      fields, pos, requiredIndex := fs, 0, 0;
    }

    method Next() returns (more: bool)
      requires Valid()
      modifies this
      ensures Valid() && more == (old(pos) + 1 < |fields|) && pos == if more then old(pos) + 1 else 0
    {
      if fields == [] {
        return false;
      }
      var previous := fields[pos];
      pos := pos + 1;
      if pos == |fields| {
        pos, requiredIndex := 0, 0;
        return false;
      }
      if previous.required {
        requiredIndex := requiredIndex + 1;
      }
      return true;
    }

    /** Searches from the present field on, around the end and back to it. */
    method Find(tag: nat) returns (found: bool)
      requires Valid()
      modifies this
      ensures Valid()
      ensures found ==> fields != [] && fields[pos].tag == tag
      ensures !found ==> (forall f :: f in fields ==> f.tag != tag) && pos == old(pos)
    {
      if fields == [] {
        return false;
      }
      var start := pos;
      ghost var wrapped := false;
      while true
        invariant Valid() && start < |fields|
        invariant if wrapped then pos < start && forall j :: (0 <= j < pos || start <= j < |fields|) ==>
                    fields[j].tag != tag
                  else start <= pos && forall j :: start <= j < pos ==> fields[j].tag != tag
        decreases if wrapped then start - pos else start + |fields| - pos
      {
        if fields[pos].tag == tag {
          return true;
        }
        var more := Next();
        wrapped := wrapped || !more;
        if pos == start {
          break;
        }
      }
      return false;
    }

    /** The number of required fields, found by going on to the end of the array. */
    method CountRequired() returns (count: nat)
      requires Valid()
      modifies this
      ensures Valid() && count == RequiredIn(fields, |fields|)
    {
      var last := false;
      while true
        invariant Valid()
        decreases |fields| - pos
      {
        count := requiredIndex;
        last := fields != [] && fields[pos].required;
        ghost var p := pos;
        var more := Next();
        if !more {
          assert p + 1 == |fields| || fields == [];
          break;
        }
      }
      if last {
        count := count + 1;
      }
    }
  }

  lemma {:induction false} FieldAt(ms: seq<Member>, n: nat, x: nat)
    requires n <= |ms| && x < |Fields(ms, n)|
    ensures var f := Fields(ms, n)[x];
            f.member < n && HasTag(ms[f.member], f.tag) && f.required == ms[f.member].Required?
    ensures Fields(ms, n)[x].required ==> RequiredIn(Fields(ms, n), x) == RequiredBefore(ms, Fields(ms, n)[x].member)
  {
    var front, all := Fields(ms, n - 1), Fields(ms, n);
    if x < |front| {
      FieldAt(ms, n - 1, x);
      SamePrefix(front, all, x);
    } else {
      RequiredFields(ms, n - 1);
      SamePrefix(front, all, |front|);
    }
  }

  lemma {:induction false} SamePrefix(a: seq<FieldRef>, b: seq<FieldRef>, n: nat)
    requires a <= b && n <= |a|
    ensures RequiredIn(a, n) == RequiredIn(b, n)
  {
    if n > 0 {
      SamePrefix(a, b, n - 1);
    }
  }

  lemma {:induction false} NoneRequired(a: seq<FieldRef>, n: nat, m: nat)
    requires n <= m <= |a| && forall x :: n <= x < m ==> !a[x].required
    ensures RequiredIn(a, m) == RequiredIn(a, n)
    decreases m
  {
    if n < m {
      NoneRequired(a, n, m - 1);
    }
  }

  lemma {:induction false} RequiredFields(ms: seq<Member>, n: nat)
    requires n <= |ms|
    ensures RequiredIn(Fields(ms, n), |Fields(ms, n)|) == RequiredBefore(ms, n)
  {
    if n > 0 {
      RequiredFields(ms, n - 1);
      var front, all := Fields(ms, n - 1), Fields(ms, n);
      SamePrefix(front, all, |front|);
      if ms[n - 1].OneOf? {
        NoneRequired(all, |front|, |all|);
      }
    }
  }

  /** Every tag of every member is in the array. */
  lemma {:induction false} TagListed(ms: seq<Member>, n: nat, i: nat, tag: nat)
    requires i < n <= |ms| && HasTag(ms[i], tag)
    ensures exists f :: f in Fields(ms, n) && f.tag == tag
  {
    var front, last := Fields(ms, n - 1), FieldsOf(ms[n - 1], n - 1);
    if i < n - 1 {
      TagListed(ms, n - 1, i, tag);
      var f :| f in front && f.tag == tag;
      assert f in front + last;
    } else {
      var f: FieldRef;
      if ms[i].OneOf? {
        var j :| 0 <= j < |ms[i].options| && ms[i].options[j].tag == tag;
        f := last[j];
      } else {
        f := last[0];
      }
      assert f in last && f in front + last && f.tag == tag;
    }
  }

  /** What a search of the array finds is the member that has the tag. */
  lemma FoundMember(ms: seq<Member>, tag: nat, x: nat)
    requires SchemaOk(ms) && x < |Fields(ms, |ms|)| && Fields(ms, |ms|)[x].tag == tag
    ensures var f := Fields(ms, |ms|)[x];
            && f.member == MemberIndex(ms, tag, 0) < |ms| && f.required == ms[f.member].Required?
            && (f.required ==> RequiredIn(Fields(ms, |ms|), x) == RequiredBefore(ms, f.member))
  {
    hide MemberOk, HasTag, Fields;
    FieldAt(ms, |ms|, x);
    var i, r := Fields(ms, |ms|)[x].member, MemberIndex(ms, tag, 0);
    assert r <= i;
  }

  lemma NotFound(ms: seq<Member>, tag: nat)
    requires forall f :: f in Fields(ms, |ms|) ==> f.tag != tag
    ensures MemberIndex(ms, tag, 0) == |ms|
  {
    var r := MemberIndex(ms, tag, 0);
    if r < |ms| {
      TagListed(ms, |ms|, r, tag);
    }
  }

  // ---------- streams ----------

  /** `pb_istream_t`: the bytes that are left. */
  class IStream {
    var data: Bytes

    constructor (bytes: Bytes)
      ensures data == bytes
    {
      data := bytes;
    }

    /** `pb_decode_varint32`. */
    method DecodeVarint32() returns (v: Option<nat>)
      modifies this
      ensures Took(Varint32(old(data)), v)
    {
      if data == [] {
        return None;
      }
      var b := data[0];
      data := data[1..];
      if b < 128 {
        return Some(b as nat);
      }
      var bitpos: nat, result: nat := 7, b as nat - 128;
      while true
        invariant result < TWO32 && Reached(bitpos, result)
        invariant MoreBits(data, bitpos, result) == Varint32(old(data))
        decreases |data|
      {
        if data == [] {
          return None;
        }
        b := data[0];
        data := data[1..];
        if bitpos >= 32 {
          if !Padding(b, bitpos, result) {
            return None;
          }
        } else {
          result := result + Place(b as nat % (if bitpos == 28 then 16 else 128), bitpos);
        }
        bitpos := bitpos + 7;
        if b < 128 {
          break;
        }
      }
      if bitpos == 35 && b >= 16 {
        return None;
      }
      return Some(result);
    }

    /** The value was parsed, and the stream stands behind it. */
    ghost predicate Took(p: Option<Parsed>, v: Option<nat>)
      reads this
    {
      v == (if p.Some? then Some(p.value.value) else None) && (p.Some? ==> data == p.value.rest)
    }

    /** `pb_decode_varint`. */
    method DecodeVarint64() returns (v: Option<nat>)
      modifies this
      ensures Took(GetVarint64(old(data)), v)
    {
      var p := DecodeVarint(data, 10);
      if p.None? {
        return None;
      }
      data := p.value.rest;
      return Some(p.value.value % TWO64);
    }

    /** `pb_read`. */
    method ReadBytes(count: nat) returns (b: Option<Bytes>)
      modifies this
      ensures b == if count <= |old(data)| then Some(old(data)[..count]) else None
      ensures b.Some? ==> data == old(data)[count..]
    {
      if |data| < count {
        return None;
      }
      b := Some(data[..count]);
      data := data[count..];
    }

    /** A length and that many bytes, for a substream or a string. */
    method ReadPrefixed() returns (b: Option<Bytes>)
      modifies this
      ensures b == if Substream(old(data)).Some? then Some(Substream(old(data)).value.value) else None
      ensures b.Some? ==> data == Substream(old(data)).value.rest
    {
      hide Varint32;
      var size := DecodeVarint32();
      if size.None? {
        return None;
      }
      b := ReadBytes(size.value);
    }

    /** `pb_skip_field`. */
    method SkipField(wireType: nat) returns (ok: bool)
      modifies this
      ensures ok == Skip(wireType, old(data)).Some? && (ok ==> data == Skip(wireType, old(data)).value)
    {
      hide Substream;
      if wireType == 0 {
        while true
          invariant SkipVarint(data) == SkipVarint(old(data))
          decreases |data|
        {
          var b := ReadBytes(1);
          if b.None? {
            return false;
          }
          if b.value[0] < 128 {
            return true;
          }
        }
      } else if wireType == 1 {
        var b := ReadBytes(8);
        return b.Some?;
      } else if wireType == 2 {
        var b := ReadPrefixed();
        return b.Some?;
      } else if wireType == 5 {
        var b := ReadBytes(4);
        return b.Some?;
      }
      return false;
    }
  }

  // ---------- the decoder ----------

  /** A value was read, and the stream stands behind it. */
  ghost predicate Got(p: Option<Read>, v: Option<Value>, rest: Bytes) {
    v == (if p.Some? then Some(p.value.v) else None) && (p.Some? ==> rest == p.value.rest)
  }

  /** The integer decoders, with their checks that the field can hold the number. */
  method DecodeNumber(s: IStream, k: Kind) returns (v: Option<Value>)
    requires k.Int? || k.UInt? || k.SInt?
    modifies s
    ensures Got(ReadNumber(k, old(s.data)), v, s.data)
  {
    hide GetVarint64;
    var u := s.DecodeVarint64();
    if u.None? {
      return None;
    }
    match k
    case Int(size) =>
      var n := if size == 8 then ToSigned(u.value) else ToSigned32(u.value);
      return if SignedFits(n, size) then Some(Number(n)) else None;
    case UInt(size) =>
      return if u.value < Range(size) then Some(Number(u.value)) else None;
    case SInt(size) =>
      var n := UnZigZag(u.value);
      return if SignedFits(n, size) then Some(Number(n)) else None;
  }

  /** The decoders of everything but submessages. */
  method DecodeLeaf(s: IStream, k: Kind) returns (v: Option<Value>)
    requires !k.Sub?
    modifies s
    ensures Got(ReadLeaf(k, old(s.data)), v, s.data)
  {
    hide Varint32, Substream, DecodeFixed32, ReadNumber;
    match k
    case Bool =>
      var u := s.DecodeVarint32();
      return if u.Some? then Some(Flag(u.value != 0)) else None;
    case Fixed4 =>
      ghost var all := s.data;
      var b := s.ReadBytes(4);
      if b.Some? {
        FixedPrefix(all, 4);
      }
      return if b.Some? then Some(Number(DecodeFixed32(b.value))) else None;
    case Fixed8 =>
      ghost var all := s.data;
      var b := s.ReadBytes(8);
      if b.Some? {
        FixedPrefix(all, 8);
        assert all[..8][4..] == all[4..][..4];
        FixedPrefix(all[4..], 4);
      }
      return if b.Some? then Some(Number(DecodeFixed64(b.value))) else None;
    case ByteArray(capacity) =>
      var b := s.ReadPrefixed();
      return if b.Some? && |b.value| <= capacity then Some(Data(b.value)) else None;
    case Text(capacity) =>
      var b := s.ReadPrefixed();
      return if b.Some? && |b.value| + 1 <= capacity then Some(Data(UpToZero(b.value))) else None;
    case FixedBytes(length) =>
      var b := s.ReadPrefixed();
      if b.None? {
        return None;
      } else if b.value == [] {
        return Some(Data(ZeroBytes(length)));
      }
      return if |b.value| == length then Some(Data(b.value)) else None;
    case Int(_) => v := DecodeNumber(s, k);
    case UInt(_) => v := DecodeNumber(s, k);
    case SInt(_) => v := DecodeNumber(s, k);
  }

  lemma FixedPrefix(b: Bytes, n: nat)
    requires 4 <= n <= |b|
    ensures DecodeFixed32(b[..n]) == DecodeFixed32(b)
  {
  }

  /** The field decoders; a submessage is decoded through a substream. */
  method DecodeOne(s: IStream, k: Kind, dest: Value) returns (v: Option<Value>)
    requires KindOk(k) && (k.Sub? ==> Typed(k, dest))
    modifies s
    ensures Got(DecodeValue(k, dest, old(s.data)), v, s.data)
    decreases k, 0, 0
  {
    hide ReadLeaf, Substream, DecodeNoInit;
    if k.Sub? {
      var b := s.ReadPrefixed();
      if b.None? {
        return None;
      }
      var sub := new IStream(b.value);
      var ss := DecodeMessage(sub, k.members, dest.slots);
      return if ss.Some? then Some(Message(ss.value)) else None;
    }
    v := DecodeLeaf(s, k);
  }

  /** The loop over a packed array. */
  method DecodePackedTo(s: IStream, k: Kind, items0: seq<Value>, max: nat) returns (items: Option<seq<Value>>)
    requires !k.Sub? && TypedItems(k, items0)
    modifies s
    ensures items == DecodePacked(k, items0, max, old(s.data))
  {
    hide ReadLeaf, Typed;
    var now := items0;
    while s.data != [] && |now| < max
      invariant TypedItems(k, now)
      invariant DecodePacked(k, now, max, s.data) == DecodePacked(k, items0, max, old(s.data))
      decreases |s.data|
    {
      var v := DecodeLeaf(s, k);
      if v.None? {
        return None;
      }
      LeafTyped(k, v.value);
      now := now + [v.value];
    }
    return if s.data == [] then Some(now) else None;
  }

  lemma LeafTyped(k: Kind, v: Value)
    ensures !k.Sub? ==> (Typed(k, v) <==> Leaf(k, v))
  {
  }

  /** `decode_static_field`. */
  method DecodeField(s: IStream, m: Member, slot: Slot, tag: nat, wireType: nat) returns (r: Option<Slot>)
    requires MemberOk(m) && TypedSlot(m, slot) && HasTag(m, tag)
    modifies s
    ensures var f := DecodeSlot(m, slot, tag, wireType, old(s.data));
            r == (if f.Some? then Some(f.value.slot) else None) && (f.Some? ==> s.data == f.value.rest)
    decreases m, 0, 0
  {
    hide DecodeValue, DecodePacked, Substream, Typed, KindOk;
    match m
    case Required(_, k, _) =>
      var v := DecodeOne(s, k, slot.v);
      return if v.Some? then Some(One(v.value)) else None;
    case Optional(_, k, _) =>
      var v := DecodeOne(s, k, slot.v);
      return if v.Some? then Some(Maybe(true, v.value)) else None;
    case Singular(_, k) =>
      var v := DecodeOne(s, k, slot.v);
      return if v.Some? then Some(One(v.value)) else None;
    case Repeated(_, k, max) =>
      if wireType == 2 && Packable(k) {
        var b := s.ReadPrefixed();
        if b.None? {
          return None;
        }
        var sub := new IStream(b.value);
        var items := DecodePackedTo(sub, k, slot.items, max);
        return if items.Some? then Some(Many(items.value)) else None;
      }
      if |slot.items| >= max {
        return None;
      }
      DefaultTyped(k);
      var v := DecodeOne(s, k, DefaultOf(k));
      return if v.Some? then Some(Many(slot.items + [v.value])) else None;
    case OneOf(os) =>
      var o := os[OptionIndex(os, tag, 0)];
      DefaultTyped(o.kind);
      var dest := if slot.which == tag then slot.v else DefaultOf(o.kind);
      var v := DecodeOne(s, o.kind, dest);
      return if v.Some? then Some(Which(tag, v.value)) else None;
  }

  /** The bits of the required fields seen so far are those of the set. */
  ghost predicate Bits(bits: seq<bool>, seen: set<nat>) {
    |bits| == MAX_REQUIRED && forall j :: j in seen <==> 0 <= j < MAX_REQUIRED && bits[j]
  }

  /** `pb_decode_noinit`: fields into the members that the iterator finds, until the stream ends; then the check that
      no required field is missing. */
  method DecodeMessage(s: IStream, ms: seq<Member>, ss: seq<Slot>) returns (r: Option<seq<Slot>>)
    requires SchemaOk(ms) && TypedAll(ms, ss)
    modifies s
    ensures r == DecodeNoInit(ms, ss, old(s.data))
    decreases ms, 1, 0
  {
    hide Varint32, DecodeSlot, MemberIndex, MemberOk, TypedSlot, Fields, RequiredBefore, RequiredIn, Skip, HasTag;
    hide SchemaOk;
    var iter := new FieldIter(Fields(ms, |ms|));
    var fieldsSeen: seq<bool> := seq(MAX_REQUIRED, _ => false);
    var slots := ss;
    ghost var seen: set<nat> := {};
    while s.data != []
      invariant iter.Valid() && Bits(fieldsSeen, seen) && TypedAll(ms, slots)
      invariant DecodeLoop(ms, Progress(slots, seen), s.data) == DecodeLoop(ms, Progress(ss, {}), old(s.data))
      decreases |s.data|
    {
      ghost var data := s.data;
      var temp := s.DecodeVarint32();
      if temp.None? {
        return None;
      }
      if temp.value == 0 {
        break;
      }
      var tag, wireType := temp.value / 8, temp.value % 8;
      var found := iter.Find(tag);
      if !found {
        NotFound(ms, tag);
        var ok := s.SkipField(wireType);
        if !ok {
          return None;
        }
        continue;
      }
      FoundMember(ms, tag, iter.pos);
      var field := iter.fields[iter.pos];
      var i := field.member;
      MemberAt(ms, slots, tag, i);
      if field.required && iter.requiredIndex < MAX_REQUIRED {
        fieldsSeen := fieldsSeen[iter.requiredIndex := true];
      }
      var slot := DecodeField(s, ms[i], slots[i], tag, wireType);
      if slot.None? {
        return None;
      }
      seen := Noted(ms, i, seen);
      slots := slots[i := slot.value];
    }
    var ok := CheckRequired(iter, fieldsSeen, ms, seen);
    return if ok then Some(slots) else None;
  }

  lemma MemberAt(ms: seq<Member>, slots: seq<Slot>, tag: nat, i: nat)
    requires SchemaOk(ms) && TypedAll(ms, slots) && i == MemberIndex(ms, tag, 0) < |ms|
    ensures MemberOk(ms[i]) && TypedSlot(ms[i], slots[i]) && HasTag(ms[i], tag)
  {
  }

  /** Whether every required field, of those that are tracked, was seen. */
  method CheckRequired(iter: FieldIter, fieldsSeen: seq<bool>, ms: seq<Member>, ghost seen: set<nat>) returns (ok: bool)
    requires iter.Valid() && iter.fields == Fields(ms, |ms|) && Bits(fieldsSeen, seen)
    modifies iter
    ensures ok == AllSeen(ms, seen)
  {
    var count := iter.CountRequired();
    RequiredFields(ms, |ms|);
    if count > MAX_REQUIRED {
      count := MAX_REQUIRED;
    }
    for j := 0 to count
      invariant forall i :: 0 <= i < j ==> i in seen
    {
      if !fieldsSeen[j] {
        return false;
      }
    }
    return true;
  }

  /** `pb_decode`: the struct is set to its defaults first. */
  method DecodeFresh(s: IStream, ms: seq<Member>) returns (r: Option<seq<Slot>>)
    requires SchemaOk(ms)
    modifies s
    ensures r == Decode(ms, old(s.data))
  {
    DefaultsTyped(ms);
    r := DecodeMessage(s, ms, Defaults(ms));
  }
}
