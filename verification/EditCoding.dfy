/** The bytes of a version edit in the manifest (db/version_edit.cc). */
module EditCoding {
  import opened InternalKeys
  import opened Masking
  import opened Coding

  const LEVELS: nat := 7

  /** What an edit says about a new file; keys in their encoded form. */
  datatype NewFile = NewFile(level: nat, number: nat, size: nat, smallest: Bytes, largest: Bytes)

  datatype Field =
    | Comparator(name: Bytes)
    | LogNumber(number: nat)
    | NextFileNumber(number: nat)
    | LastSequence(number: nat)
    | CompactPointer(level: nat, key: Bytes)
    | DeletedFile(level: nat, number: nat)
    | AddedFile(file: NewFile)
    | PrevLogNumber(number: nat)

  datatype EditFields = EditFields(
    comparator: Option<Bytes>,
    logNumber: Option<nat>,
    prevLogNumber: Option<nat>,
    nextFile: Option<nat>,
    lastSequence: Option<nat>,
    pointers: seq<(nat, Bytes)>,
    deleted: set<(nat, nat)>,
    added: seq<NewFile>)

  /** Values that fit the widths of the format, levels that exist. */
  predicate FieldOk(f: Field) {
    match f
    case Comparator(name) => |name| < TWO32
    case CompactPointer(l, k) => l < LEVELS && |k| < TWO32
    case DeletedFile(l, n) => l < LEVELS && n < TWO64
    case AddedFile(g) =>
      g.level < LEVELS && g.number < TWO64 && g.size < TWO64 && |g.smallest| < TWO32 && |g.largest| < TWO32
    case _ => f.number < TWO64
  }

  function TagOf(f: Field): nat {
    match f
    case Comparator(_) => 1
    case LogNumber(_) => 2
    case NextFileNumber(_) => 3
    case LastSequence(_) => 4
    case CompactPointer(_, _) => 5
    case DeletedFile(_, _) => 6
    case AddedFile(_) => 7
    case PrevLogNumber(_) => 9
  }

  function Payload(f: Field): Bytes {
    match f
    case Comparator(name) => PutSlice(name)
    case CompactPointer(l, k) => Varint(l) + PutSlice(k)
    case DeletedFile(l, n) => Varint(l) + Varint(n)
    case AddedFile(g) =>
      Varint(g.level) + (Varint(g.number) + (Varint(g.size) + (PutSlice(g.smallest) + PutSlice(g.largest))))
    case _ => Varint(f.number)
  }

  function FieldBytes(f: Field): Bytes {
    Varint(TagOf(f)) + Payload(f)
  }

  function EncodeFields(fs: seq<Field>): Bytes {
    if fs == [] then [] else EncodeFields(fs[..|fs| - 1]) + FieldBytes(fs[|fs| - 1])
  }

  // ---------- decoding ----------

  datatype ParsedField = ParsedField(field: Field, rest: Bytes)

  function GetLevel(s: Bytes): (r: Option<Parsed>)
    ensures r.Some? ==> |r.value.rest| < |s|
  {
    var v := GetVarint32(s);
    if v.Some? && v.value.value < LEVELS then v else None
  }

  /** The payload after tag `tag`. */
  function ParsePayload(tag: nat, s: Bytes): (r: Option<ParsedField>)
    ensures r.Some? ==> |r.value.rest| <= |s|
  {
    match tag
    case 1 => (var v := GetSlice(s);
                if v.None? then None else Some(ParsedField(Comparator(v.value.value), v.value.rest)))
    case 2 => (var v := GetVarint64(s);
                if v.None? then None else Some(ParsedField(LogNumber(v.value.value), v.value.rest)))
    case 3 => (var v := GetVarint64(s);
                if v.None? then None else Some(ParsedField(NextFileNumber(v.value.value), v.value.rest)))
    case 4 => (var v := GetVarint64(s);
                if v.None? then None else Some(ParsedField(LastSequence(v.value.value), v.value.rest)))
    case 9 => (var v := GetVarint64(s);
                if v.None? then None else Some(ParsedField(PrevLogNumber(v.value.value), v.value.rest)))
    case 5 =>
      var l := GetLevel(s);
      if l.None? then None else
      var k := GetSlice(l.value.rest);
      if k.None? then None else Some(ParsedField(CompactPointer(l.value.value, k.value.value), k.value.rest))
    case 6 =>
      var l := GetLevel(s);
      if l.None? then None else
      var n := GetVarint64(l.value.rest);
      if n.None? then None else Some(ParsedField(DeletedFile(l.value.value, n.value.value), n.value.rest))
    case 7 => ParseNewFile(s)
    case _ => None
  }

  function ParseNewFile(s: Bytes): (r: Option<ParsedField>)
    ensures r.Some? ==> |r.value.rest| <= |s|
  {
    var l := GetLevel(s);
    if l.None? then None else
    var n := GetVarint64(l.value.rest);
    if n.None? then None else
    var z := GetVarint64(n.value.rest);
    if z.None? then None else
    var a := GetSlice(z.value.rest);
    if a.None? then None else
    var b := GetSlice(a.value.rest);
    if b.None? then None else
    Some(ParsedField(AddedFile(NewFile(l.value.value, n.value.value, z.value.value, a.value.value, b.value.value)),
      b.value.rest))
  }

  lemma LevelRoundTrip(l: nat, rest: Bytes)
    requires l < LEVELS
    ensures GetLevel(Varint(l) + rest) == Some(Parsed(l, rest))
  {
    hide Varint, GetVarint32;
    Varint32RoundTrip(l, rest);
  }

  lemma PayloadRoundTrip(f: Field, rest: Bytes)
    requires FieldOk(f)
    ensures ParsePayload(TagOf(f), Payload(f) + rest) == Some(ParsedField(f, rest))
  {
    hide Varint, GetVarint32, GetVarint64, GetSlice, PutSlice, GetLevel;
    match f {
      case Comparator(name) => SliceRoundTrip(name, rest);
      case CompactPointer(l, k) =>
        assert Payload(f) + rest == Varint(l) + (PutSlice(k) + rest);
        LevelRoundTrip(l, PutSlice(k) + rest);
        SliceRoundTrip(k, rest);
      case DeletedFile(l, n) =>
        assert Payload(f) + rest == Varint(l) + (Varint(n) + rest);
        LevelRoundTrip(l, Varint(n) + rest);
        Varint64RoundTrip(n, rest);
      case AddedFile(g) => NewFileRoundTrip(g, rest);
      case _ => Varint64RoundTrip(f.number, rest);
    }
  }

  lemma NewFileRoundTrip(g: NewFile, rest: Bytes)
    requires FieldOk(AddedFile(g))
    ensures ParseNewFile(Payload(AddedFile(g)) + rest) == Some(ParsedField(AddedFile(g), rest))
  {
    hide Varint, GetVarint32, GetVarint64, GetSlice, PutSlice, GetLevel;
    var e := PutSlice(g.largest) + rest;
    var d := PutSlice(g.smallest) + e;
    var c := Varint(g.size) + d;
    var b := Varint(g.number) + c;
    assert Payload(AddedFile(g)) + rest == Varint(g.level) + b;
    LevelRoundTrip(g.level, b);
    Varint64RoundTrip(g.number, c);
    Varint64RoundTrip(g.size, d);
    SliceRoundTrip(g.smallest, e);
    SliceRoundTrip(g.largest, rest);
  }

  /** What a field does to an edit: numbers overwrite, files and pointers add up. */
  function Set(e: EditFields, f: Field): EditFields {
    match f
    case Comparator(name) => e.(comparator := Some(name))
    case LogNumber(n) => e.(logNumber := Some(n))
    case PrevLogNumber(n) => e.(prevLogNumber := Some(n))
    case NextFileNumber(n) => e.(nextFile := Some(n))
    case LastSequence(n) => e.(lastSequence := Some(n))
    case CompactPointer(l, k) => e.(pointers := e.pointers + [(l, k)])
    case DeletedFile(l, n) => e.(deleted := e.deleted + {(l, n)})
    case AddedFile(g) => e.(added := e.added + [g])
  }

  function SetAll(e: EditFields, fs: seq<Field>): EditFields {
    if fs == [] then e else Set(SetAll(e, fs[..|fs| - 1]), fs[|fs| - 1])
  }

  /** The decoding loop: nothing if a field is broken or bytes are left that are no tag. */
  function Decode(e: EditFields, s: Bytes): Option<EditFields>
    decreases |s|
  {
    var tag := GetVarint32(s);
    if tag.None? then (if s == [] then Some(e) else None)
    else
      var p := ParsePayload(tag.value.value, tag.value.rest);
      if p.None? then None else Decode(Set(e, p.value.field), p.value.rest)
  }

  lemma DecodeField(e: EditFields, f: Field, rest: Bytes)
    requires FieldOk(f)
    ensures Decode(e, FieldBytes(f) + rest) == Decode(Set(e, f), rest)
  {
    hide Varint, GetVarint32, ParsePayload, Payload, Set;
    assert FieldBytes(f) + rest == Varint(TagOf(f)) + (Payload(f) + rest);
    Varint32RoundTrip(TagOf(f), Payload(f) + rest);
    PayloadRoundTrip(f, rest);
  }

  /** Decoding what was encoded applies the fields in order. */
  lemma {:induction false} DecodeFields(e: EditFields, fs: seq<Field>, rest: Bytes)
    requires forall f :: f in fs ==> FieldOk(f)
    ensures Decode(e, EncodeFields(fs) + rest) == Decode(SetAll(e, fs), rest)
    decreases |fs|
  {
    hide FieldBytes, Decode, Set, FieldOk;
    if fs == [] {
      assert EncodeFields(fs) + rest == rest;
    } else {
      var front, f := fs[..|fs| - 1], fs[|fs| - 1];
      assert EncodeFields(fs) + rest == EncodeFields(front) + (FieldBytes(f) + rest);
      DecodeFields(e, front, FieldBytes(f) + rest);
      DecodeField(SetAll(e, front), f, rest);
    }
  }

  // ---------- whole edits ----------

  function Name(n: Option<Bytes>): seq<Field> {
    if n.None? then [] else [Comparator(n.value)]
  }

  /** The number field with a tag, if it is set. */
  function Number(tag: nat, n: Option<nat>): seq<Field> {
    if n.None? then []
    else [match tag
          case 2 => LogNumber(n.value)
          case 9 => PrevLogNumber(n.value)
          case 3 => NextFileNumber(n.value)
          case _ => LastSequence(n.value)]
  }

  function Scalars(e: EditFields): seq<Field> {
    Name(e.comparator) + Number(2, e.logNumber) + Number(9, e.prevLogNumber) + Number(3, e.nextFile)
      + Number(4, e.lastSequence)
  }

  function Pointers(ps: seq<(nat, Bytes)>): (fs: seq<Field>)
    ensures |fs| == |ps|
  {
    seq(|ps|, i requires 0 <= i < |ps| => CompactPointer(ps[i].0, ps[i].1))
  }

  function Deletions(ds: seq<(nat, nat)>): (fs: seq<Field>)
    ensures |fs| == |ds|
  {
    seq(|ds|, i requires 0 <= i < |ds| => DeletedFile(ds[i].0, ds[i].1))
  }

  function Additions(gs: seq<NewFile>): (fs: seq<Field>)
    ensures |fs| == |gs|
  {
    seq(|gs|, i requires 0 <= i < |gs| => AddedFile(gs[i]))
  }

  /** The fields of an edit as written, its deleted files in some order. */
  function FieldsOf(e: EditFields, order: seq<(nat, nat)>): seq<Field> {
    Scalars(e) + Pointers(e.pointers) + Deletions(order) + Additions(e.added)
  }

  ghost predicate EditOk(e: EditFields, order: seq<(nat, nat)>) {
    && (set d | d in order) == e.deleted
    && forall f :: f in FieldsOf(e, order) ==> FieldOk(f)
  }

  const NO_FIELDS: EditFields := EditFields(None, None, None, None, None, [], {}, [])

  /** `Clear`, which forgets everything but the compact pointers. */
  function Cleared(e: EditFields): EditFields {
    NO_FIELDS.(pointers := e.pointers)
  }

  lemma {:induction false} SetAllAppend(e: EditFields, a: seq<Field>, b: seq<Field>)
    ensures SetAll(e, a + b) == SetAll(SetAll(e, a), b)
    decreases |b|
  {
    hide Set;
    if b == [] {
      assert a + b == a;
    } else {
      assert (a + b)[..|a + b| - 1] == a + b[..|b| - 1];
      SetAllAppend(e, a, b[..|b| - 1]);
    }
  }

  lemma {:induction false} SetPointers(e: EditFields, ps: seq<(nat, Bytes)>)
    ensures SetAll(e, Pointers(ps)) == e.(pointers := e.pointers + ps)
    decreases |ps|
  {
    if ps == [] {
      assert e.pointers + ps == e.pointers;
    } else {
      var front := ps[..|ps| - 1];
      SetPointers(e, front);
      assert Pointers(ps)[..|ps| - 1] == Pointers(front);
      assert e.pointers + ps == e.pointers + front + [ps[|ps| - 1]];
    }
  }

  function AsSet(ds: seq<(nat, nat)>): set<(nat, nat)> {
    set d | d in ds
  }

  lemma LastInSet(front: seq<(nat, nat)>, last: (nat, nat))
    ensures AsSet(front + [last]) == AsSet(front) + {last} && AsSet([]) == {}
  {
  }

  lemma {:induction false} SetDeletions(e: EditFields, ds: seq<(nat, nat)>)
    ensures SetAll(e, Deletions(ds)) == e.(deleted := e.deleted + AsSet(ds))
    decreases |ds|
  {
    hide AsSet;
    LastInSet([], (0, 0));
    if ds == [] {
      assert e.deleted + AsSet(ds) == e.deleted;
    } else {
      var front, last := ds[..|ds| - 1], ds[|ds| - 1];
      SetDeletions(e, front);
      assert Deletions(ds)[..|ds| - 1] == Deletions(front);
      assert ds == front + [last];
      LastInSet(front, last);
      var was := e.deleted + AsSet(front);
      assert e.deleted + AsSet(ds) == was + {last};
    }
  }

  lemma {:induction false} SetAdditions(e: EditFields, gs: seq<NewFile>)
    ensures SetAll(e, Additions(gs)) == e.(added := e.added + gs)
    decreases |gs|
  {
    if gs == [] {
      assert e.added + gs == e.added;
    } else {
      var front := gs[..|gs| - 1];
      SetAdditions(e, front);
      assert Additions(gs)[..|gs| - 1] == Additions(front);
      assert e.added + gs == e.added + front + [gs[|gs| - 1]];
    }
  }

  lemma SetOne(e: EditFields, f: Field)
    ensures SetAll(e, [f]) == Set(e, f) && SetAll(e, []) == e
  {
    hide Set;
    assert [f][..0] == [];
  }

  lemma SetScalars(e: EditFields, t: EditFields)
    requires t.comparator.None? && t.logNumber.None? && t.prevLogNumber.None? && t.nextFile.None?
    requires t.lastSequence.None?
    ensures SetAll(t, Scalars(e))
         == EditFields(e.comparator, e.logNumber, e.prevLogNumber, e.nextFile, e.lastSequence, t.pointers, t.deleted,
                       t.added)
  {
    hide SetAll, Number, Name;
    var a, b, c := Name(e.comparator), Number(2, e.logNumber), Number(9, e.prevLogNumber);
    var d, f := Number(3, e.nextFile), Number(4, e.lastSequence);
    SetAllAppend(t, a + b + c + d, f);
    SetAllAppend(t, a + b + c, d);
    SetAllAppend(t, a + b, c);
    SetAllAppend(t, a, b);
    SetName(t, e.comparator);
    var t1 := t.(comparator := e.comparator);
    SetNumber(t1, e.logNumber);
    var t2 := t1.(logNumber := e.logNumber);
    SetNumber(t2, e.prevLogNumber);
    var t3 := t2.(prevLogNumber := e.prevLogNumber);
    SetNumber(t3, e.nextFile);
    SetNumber(t3.(nextFile := e.nextFile), e.lastSequence);
  }

  lemma SetName(e: EditFields, n: Option<Bytes>)
    ensures SetAll(e, Name(n)) == if n.None? then e else e.(comparator := n)
  {
    hide SetAll;
    SetOne(e, if n.None? then LogNumber(0) else Comparator(n.value));
  }

  lemma SetNumber(e: EditFields, n: Option<nat>)
    ensures SetAll(e, Number(2, n)) == if n.None? then e else e.(logNumber := n)
    ensures SetAll(e, Number(9, n)) == if n.None? then e else e.(prevLogNumber := n)
    ensures SetAll(e, Number(3, n)) == if n.None? then e else e.(nextFile := n)
    ensures SetAll(e, Number(4, n)) == if n.None? then e else e.(lastSequence := n)
  {
    hide SetAll;
    SetOne(e, LogNumber(if n.None? then 0 else n.value));
    SetOne(e, PrevLogNumber(if n.None? then 0 else n.value));
    SetOne(e, NextFileNumber(if n.None? then 0 else n.value));
    SetOne(e, LastSequence(if n.None? then 0 else n.value));
  }

  /** Decoding an encoded edit gives that edit, behind the compact pointers the target already had. */
  lemma EditRoundTrip(e: EditFields, order: seq<(nat, nat)>, target: EditFields)
    requires EditOk(e, order)
    ensures Decode(Cleared(target), EncodeFields(FieldsOf(e, order)))
             == Some(e.(pointers := target.pointers + e.pointers))
  {
    hide SetAll, Decode, EncodeFields, FieldOk, Scalars, Pointers, Deletions, Additions;
    var t := Cleared(target);
    var fs := FieldsOf(e, order);
    var s, p, d, a := Scalars(e), Pointers(e.pointers), Deletions(order), Additions(e.added);
    SetAllAppend(t, s + p + d, a);
    SetAllAppend(t, s + p, d);
    SetAllAppend(t, s, p);
    SetScalars(e, t);
    var t1 := SetAll(t, s);
    SetPointers(t1, e.pointers);
    var t2 := SetAll(t1, p);
    SetDeletions(t2, order);
    var t3 := SetAll(t2, d);
    SetAdditions(t3, e.added);
    DecodeFields(t, fs, []);
    assert EncodeFields(fs) + [] == EncodeFields(fs);
    DecodeNothing(SetAll(t, fs));
    assert {} + (set d | d in order) == e.deleted && [] + e.added == e.added;
  }

  lemma DecodeNothing(e: EditFields)
    ensures Decode(e, []) == Some(e)
  {
  }

  /** So the round trip is exact if and only if the target had no compact pointers. */
  lemma EditRoundTripIff(e: EditFields, order: seq<(nat, nat)>, target: EditFields)
    requires EditOk(e, order)
    ensures Decode(Cleared(target), EncodeFields(FieldsOf(e, order))) == Some(e) <==> target.pointers == []
  {
    hide Decode, EncodeFields, FieldsOf, FieldOk;
    EditRoundTrip(e, order, target);
    if target.pointers == [] {
      assert target.pointers + e.pointers == e.pointers;
    } else {
      assert |target.pointers + e.pointers| > |e.pointers|;
    }
  }

  class VersionEdit {
    var e: EditFields

    constructor ()
      ensures e == NO_FIELDS
    {
      e := NO_FIELDS;
    }

    method EncodeTo() returns (dst: Bytes, ghost order: seq<(nat, nat)>)
      ensures (set d | d in order) == e.deleted
      ensures dst == EncodeFields(FieldsOf(e, order))
    {
      hide FieldBytes, EncodeFields, Name, Number, Pointers, Deletions, Additions;
      dst := [];
      ghost var fs: seq<Field> := [];
      NothingEncoded();
      dst := PutFields(dst, fs, Name(e.comparator));
      fs := fs + Name(e.comparator);
      dst := PutFields(dst, fs, Number(2, e.logNumber));
      fs := fs + Number(2, e.logNumber);
      dst := PutFields(dst, fs, Number(9, e.prevLogNumber));
      fs := fs + Number(9, e.prevLogNumber);
      dst := PutFields(dst, fs, Number(3, e.nextFile));
      fs := fs + Number(3, e.nextFile);
      dst := PutFields(dst, fs, Number(4, e.lastSequence));
      fs := fs + Number(4, e.lastSequence);
      assert fs == Scalars(e);
      dst := PutFields(dst, fs, Pointers(e.pointers));
      fs := fs + Pointers(e.pointers);
      var deletions;
      deletions, order := InSomeOrder(e.deleted);
      dst := PutFields(dst, fs, deletions);
      fs := fs + deletions;
      dst := PutFields(dst, fs, Additions(e.added));
    }

    /** Decodes into this edit; its compact pointers stay in front. */
    method DecodeFrom(src: Bytes) returns (ok: bool)
      modifies this
      ensures ok <==> Decode(Cleared(old(e)), src).Some?
      ensures ok ==> e == Decode(Cleared(old(e)), src).value
    {
      hide ParsePayload, GetVarint32, Set;
      e := Cleared(e);
      ghost var e0 := e;
      var input := src;
      var tag := GetVarint32(input);
      while tag.Some?
        invariant Decode(e, input) == Decode(e0, src) && tag == GetVarint32(input)
        decreases |input|
      {
        var p := ParsePayload(tag.value.value, tag.value.rest);
        if p.None? {
          return false;
        }
        e := Set(e, p.value.field);
        input := p.value.rest;
        tag := GetVarint32(input);
      }
      ok := input == [];
    }
  }

  /** Appends the bytes of some fields. */
  method PutFields(dst0: Bytes, ghost before: seq<Field>, fs: seq<Field>) returns (dst: Bytes)
    requires dst0 == EncodeFields(before)
    ensures dst == EncodeFields(before + fs)
  {
    hide FieldBytes, EncodeFields;
    dst := dst0;
    assert before + fs[..0] == before;
    var i := 0;
    while i < |fs|
      invariant 0 <= i <= |fs| && dst == EncodeFields(before + fs[..i])
    {
      assert fs[..i + 1] == fs[..i] + [fs[i]];
      EncodeOneMore(before, fs[..i], fs[i]);
      dst := dst + FieldBytes(fs[i]);
      i := i + 1;
    }
    assert fs[..i] == fs;
  }

  /** The deleted files one after another. */
  method InSomeOrder(deleted: set<(nat, nat)>) returns (fs: seq<Field>, ghost order: seq<(nat, nat)>)
    ensures (set d | d in order) == deleted && fs == Deletions(order)
  {
    var rest := deleted;
    fs, order := [], [];
    while rest != {}
      invariant rest <= deleted && (forall d :: d in order <==> d in deleted - rest)
      invariant fs == Deletions(order)
      decreases |rest|
    {
      var d :| d in rest;
      fs := fs + [DeletedFile(d.0, d.1)];
      order := order + [d];
      rest := rest - {d};
    }
  }

  lemma NothingEncoded()
    ensures EncodeFields([]) == []
  {
  }

  lemma EncodeOneMore(a: seq<Field>, b: seq<Field>, f: Field)
    ensures EncodeFields(a + (b + [f])) == EncodeFields(a + b) + FieldBytes(f)
    ensures b == [] ==> a + (b + [f]) == a + [f] && a + b == a
  {
    hide FieldBytes;
    var all := a + (b + [f]);
    assert all[..|all| - 1] == a + b;
  }
}
