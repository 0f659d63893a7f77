/** Decoding a message behind another: fields may come again, and what is read later goes on top of what was read before
    (nanopb/pb_decode.c). */
module PbMerging {
  import opened InternalKeys
  import opened Masking
  import opened Coding
  import opened PbWire
  import opened PbMessages
  import opened PbEncoding
  import opened PbDecoding
  import opened PbRoundTrip

  // ---------- more bytes behind what is read ----------

  lemma {:induction false} MoreBitsFront(s: Bytes, bitpos: nat, result: nat, t: Bytes)
    requires result < TWO32 && Reached(bitpos, result) && MoreBits(s, bitpos, result).Some?
    ensures var r := MoreBits(s, bitpos, result).value;
            MoreBits(s + t, bitpos, result) == Some(Parsed(r.value, r.rest + t))
    decreases |s|
  {
    assert (s + t)[0] == s[0] && (s + t)[1..] == s[1..] + t;
    var low := s[0] as nat % (if bitpos == 28 then 16 else 128);
    var r := if bitpos >= 32 then result else result + Place(low, bitpos);
    if s[0] >= 128 {
      MoreBitsFront(s[1..], bitpos + 7, r, t);
    }
  }

  lemma Varint32Ahead(s: Bytes, t: Bytes)
    requires Varint32(s).Some?
    ensures Varint32(s + t) == Some(Parsed(Varint32(s).value.value, Varint32(s).value.rest + t))
  {
    hide MoreBits;
    assert (s + t)[0] == s[0] && (s + t)[1..] == s[1..] + t;
    if s[0] >= 128 {
      MoreBitsFront(s[1..], 7, s[0] as nat - 128, t);
    }
  }

  lemma SubstreamAhead(s: Bytes, t: Bytes)
    requires Substream(s).Some?
    ensures Substream(s + t) == Some(ParsedSlice(Substream(s).value.value, Substream(s).value.rest + t))
  {
    hide Varint32;
    Varint32Ahead(s, t);
    var n := Varint32(s).value;
    assert (n.rest + t)[..n.value] == n.rest[..n.value] && (n.rest + t)[n.value..] == n.rest[n.value..] + t;
  }

  lemma ReadLeafAhead(k: Kind, s: Bytes, t: Bytes)
    requires !k.Sub? && ReadLeaf(k, s).Some?
    ensures ReadLeaf(k, s + t) == Some(Read(ReadLeaf(k, s).value.v, ReadLeaf(k, s).value.rest + t))
  {
    hide Varint32, Substream, Groups, UpToZero;
    match k
    case Bool => Varint32Ahead(s, t);
    case Fixed4 => assert (s + t)[4..] == s[4..] + t;
    case Fixed8 => assert (s + t)[8..] == s[8..] + t; assert (s + t)[4..][..4] == s[4..][..4];
    case ByteArray(_) => SubstreamAhead(s, t);
    case Text(_) => SubstreamAhead(s, t);
    case FixedBytes(_) => SubstreamAhead(s, t);
    case Int(_) => GroupsFront(s, 10, t);
    case UInt(_) => GroupsFront(s, 10, t);
    case SInt(_) => GroupsFront(s, 10, t);
  }

  lemma DecodeValueAhead(k: Kind, dest: Value, s: Bytes, t: Bytes)
    requires KindOk(k) && (k.Sub? ==> Typed(k, dest)) && DecodeValue(k, dest, s).Some?
    ensures DecodeValue(k, dest, s + t)
         == Some(Read(DecodeValue(k, dest, s).value.v, DecodeValue(k, dest, s).value.rest + t))
  {
    hide ReadLeaf, Substream, DecodeNoInit;
    if k.Sub? {
      SubstreamAhead(s, t);
    } else {
      ReadLeafAhead(k, s, t);
    }
  }

  lemma DecodeSlotAhead(m: Member, slot: Slot, tag: nat, wireType: nat, s: Bytes, t: Bytes)
    requires MemberOk(m) && TypedSlot(m, slot) && HasTag(m, tag) && DecodeSlot(m, slot, tag, wireType, s).Some?
    ensures var r := DecodeSlot(m, slot, tag, wireType, s).value;
            DecodeSlot(m, slot, tag, wireType, s + t) == Some(ReadSlot(r.slot, r.rest + t))
  {
    hide DecodeValue, Substream, DecodePacked, Typed, KindOk, DefaultOf;
    match m
    case Required(_, k, _) => DecodeValueAhead(k, slot.v, s, t);
    case Optional(_, k, _) => DecodeValueAhead(k, slot.v, s, t);
    case Singular(_, k) => DecodeValueAhead(k, slot.v, s, t);
    case Repeated(_, k, _) =>
      if wireType == 2 && Packable(k) {
        SubstreamAhead(s, t);
      } else {
        DefaultTyped(k);
        DecodeValueAhead(k, DefaultOf(k), s, t);
      }
    case OneOf(os) =>
      var o := os[OptionIndex(os, tag, 0)];
      DefaultTyped(o.kind);
      DecodeValueAhead(o.kind, if slot.which == tag then slot.v else DefaultOf(o.kind), s, t);
  }

  lemma {:induction false} SkipVarintFront(s: Bytes, t: Bytes)
    requires SkipVarint(s).Some?
    ensures SkipVarint(s + t) == Some(SkipVarint(s).value + t)
  {
    assert (s + t)[0] == s[0] && (s + t)[1..] == s[1..] + t;
    if s[0] >= 128 {
      SkipVarintFront(s[1..], t);
    }
  }

  lemma SkipAhead(wireType: nat, s: Bytes, t: Bytes)
    requires Skip(wireType, s).Some?
    ensures Skip(wireType, s + t) == Some(Skip(wireType, s).value + t)
  {
    hide Substream, SkipVarint;
    match wireType
    case 0 => SkipVarintFront(s, t);
    case 1 => assert (s + t)[8..] == s[8..] + t;
    case 2 => SubstreamAhead(s, t);
    case 5 => assert (s + t)[4..] == s[4..] + t;
    case _ =>
  }

  // ---------- one message behind another ----------

  /** One turn of the loop: the progress and the bytes that are left, or nothing if the field cannot be read. */
  ghost function Turn(ms: seq<Member>, p: Progress, s: Bytes): (r: Option<(Progress, Bytes)>)
    requires SchemaOk(ms) && TypedAll(ms, p.slots)
    ensures r.Some? ==> |r.value.1| < |s| && TypedAll(ms, r.value.0.slots)
  {
    var t := Varint32(s);
    if t.None? || t.value.value == 0 then None
    else
      var tag, wireType, i := t.value.value / 8, t.value.value % 8, MemberIndex(ms, t.value.value / 8, 0);
      if i == |ms| then
        var rest := Skip(wireType, t.value.rest);
        if rest.None? then None else Some((p, rest.value))
      else
        var f := DecodeSlot(ms[i], p.slots[i], tag, wireType, t.value.rest);
        if f.None? then None
        else Some((Progress(p.slots[i := f.value.slot], Noted(ms, i, p.seen)), f.value.rest))
  }

  /** The loop reads all the bytes, and no zero tag. */
  ghost predicate ReadsAll(ms: seq<Member>, p: Progress, s: Bytes)
    requires SchemaOk(ms) && TypedAll(ms, p.slots)
    decreases |s|
  {
    s == [] || (Turn(ms, p, s).Some? && ReadsAll(ms, Turn(ms, p, s).value.0, Turn(ms, p, s).value.1))
  }

  lemma LoopTurns(ms: seq<Member>, p: Progress, s: Bytes)
    requires SchemaOk(ms) && TypedAll(ms, p.slots) && Turn(ms, p, s).Some?
    ensures DecodeLoop(ms, p, s) == DecodeLoop(ms, Turn(ms, p, s).value.0, Turn(ms, p, s).value.1)
  {
    hide Varint32, DecodeSlot, SchemaOk, TypedAll, Skip, MemberIndex, Noted;
  }

  lemma TurnAhead(ms: seq<Member>, p: Progress, s: Bytes, t: Bytes)
    requires SchemaOk(ms) && TypedAll(ms, p.slots) && Turn(ms, p, s).Some?
    ensures Turn(ms, p, s + t) == Some((Turn(ms, p, s).value.0, Turn(ms, p, s).value.1 + t))
  {
    hide Varint32, DecodeSlot, Skip, MemberIndex, Noted, MemberOk, TypedSlot, HasTag;
    Varint32Ahead(s, t);
    var v := Varint32(s).value;
    var tag, i := v.value / 8, MemberIndex(ms, v.value / 8, 0);
    if i == |ms| {
      SkipAhead(v.value % 8, v.rest, t);
    } else {
      DecodeSlotAhead(ms[i], p.slots[i], tag, v.value % 8, v.rest, t);
    }
  }

  /** Bytes behind a message that is read to its end are read on top of it. */
  lemma {:induction false} LoopGoesOn(ms: seq<Member>, p: Progress, s: Bytes, t: Bytes)
    requires SchemaOk(ms) && TypedAll(ms, p.slots) && ReadsAll(ms, p, s)
    ensures DecodeLoop(ms, p, s).Some?
    ensures DecodeLoop(ms, p, s + t) == DecodeLoop(ms, DecodeLoop(ms, p, s).value, t)
    decreases |s|
  {
    hide SchemaOk, TypedAll, Turn;
    if s == [] {
      assert s + t == t;
    } else {
      hide DecodeLoop;
      var (q, rest) := Turn(ms, p, s).value;
      LoopTurns(ms, p, s);
      TurnAhead(ms, p, s, t);
      LoopTurns(ms, p, s + t);
      LoopGoesOn(ms, q, rest, t);
    }
  }

  lemma TurnSeen(ms: seq<Member>, p: Progress, seen: set<nat>, s: Bytes)
    requires SchemaOk(ms) && TypedAll(ms, p.slots) && Turn(ms, p, s).Some?
    ensures var (q, rest) := Turn(ms, p, s).value;
            Turn(ms, Progress(p.slots, p.seen + seen), s) == Some((Progress(q.slots, q.seen + seen), rest))
  {
    hide SchemaOk, TypedAll, Varint32, DecodeSlot, Skip, MemberIndex, RequiredBefore;
    var i := MemberIndex(ms, Varint32(s).value.value / 8, 0);
    if i < |ms| {
      assert Noted(ms, i, p.seen + seen) == Noted(ms, i, p.seen) + seen;
    }
  }

  /** A zero tag ends the message, whatever follows. */
  lemma ZeroTagEnds(ms: seq<Member>, p: Progress, s: Bytes, junk: Bytes)
    requires SchemaOk(ms) && TypedAll(ms, p.slots) && ReadsAll(ms, p, s)
    ensures DecodeLoop(ms, p, s + ([0] + junk)) == DecodeLoop(ms, p, s)
  {
    hide SchemaOk, TypedAll, Turn, ReadsAll, DecodeSlot, Skip, MemberIndex;
    LoopGoesOn(ms, p, s, [0] + junk);
    assert Varint32([0] + junk).value.value == 0;
  }

  /** What was seen before does not matter to what is read, and is not forgotten. */
  lemma {:induction false} SeenBefore(ms: seq<Member>, p: Progress, seen: set<nat>, s: Bytes)
    requires SchemaOk(ms) && TypedAll(ms, p.slots)
    ensures var q := DecodeLoop(ms, p, s);
            DecodeLoop(ms, Progress(p.slots, p.seen + seen), s)
            == if q.None? then None else Some(Progress(q.value.slots, q.value.seen + seen))
    decreases |s|
  {
    hide SchemaOk, TypedAll, Varint32, DecodeSlot, Skip, MemberIndex, RequiredBefore;
    if s != [] && Turn(ms, p, s).Some? {
      var (q, rest) := Turn(ms, p, s).value;
      LoopTurns(ms, p, s);
      LoopTurns(ms, Progress(p.slots, p.seen + seen), s);
      TurnSeen(ms, p, seen, s);
      SeenBefore(ms, q, seen, rest);
    }
  }

  /** A message behind a complete one, as `pb_decode_noinit` takes it, is decoded on top of what that one left: with or
      without the bytes of the first in front. */
  lemma MessagesMerge(ms: seq<Member>, ss: seq<Slot>, s: Bytes, t: Bytes)
    requires SchemaOk(ms) && TypedAll(ms, ss)
    requires ReadsAll(ms, Progress(ss, {}), s) && DecodeNoInit(ms, ss, s).Some?
    ensures var first := DecodeNoInit(ms, ss, s).value;
            && (DecodeNoInit(ms, first, t).Some? ==> DecodeNoInit(ms, ss, s + t) == DecodeNoInit(ms, first, t))
            && DecodeNoInit(ms, ss, s + t)
               == var q := DecodeLoop(ms, Progress(first, {}), t); if q.None? then None else Some(q.value.slots)
  {
    hide SchemaOk, TypedAll, DecodeLoop, ReadsAll, RequiredBefore;
    var p := DecodeLoop(ms, Progress(ss, {}), s).value;
    LoopGoesOn(ms, Progress(ss, {}), s, t);
    SeenBefore(ms, Progress(p.slots, {}), p.seen, t);
    assert {} + p.seen == p.seen;
  }

  /** A submessage that comes in two parts is the one whose bytes are those of both. */
  lemma SubmessagesMerge(ms: seq<Member>, dest: Value, x: Bytes, y: Bytes, more: Bytes)
    requires KindOk(Sub(ms)) && Typed(Sub(ms), dest) && |x| + |y| < TWO32
    requires ReadsAll(ms, Progress(dest.slots, {}), x)
    requires DecodeValue(Sub(ms), dest, PutSlice(x) + more).Some?
    ensures var first := DecodeValue(Sub(ms), dest, PutSlice(x) + more).value;
            var second := DecodeValue(Sub(ms), first.v, PutSlice(y) + more);
            && first.rest == more
            && (second.Some? ==> DecodeValue(Sub(ms), dest, PutSlice(x + y) + more) == second)
  {
    hide SchemaOk, TypedAll, DecodeNoInit, PutSlice, Substream, ReadsAll;
    SubstreamReads(x, more);
    SubstreamReads(y, more);
    SubstreamReads(x + y, more);
    MessagesMerge(ms, dest.slots, x, y);
  }
}
