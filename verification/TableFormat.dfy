/** The bytes of a table file: encoded keys, block handles, block trailers, the footer (table/format.cc,
    db/dbformat.h). */
module TableFormat {
  import opened InternalKeys
  import opened Crc32c
  import opened Masking
  import opened Coding
  import opened Separators

  // ---------- internal keys ----------

  /** User key, then the packed sequence number and type. */
  function EncodeKey(k: TableKey): (b: Bytes)
    ensures |b| == |k.user| + 8
  {
    k.user + Fixed64(k.tag)
  }

  function DecodeKey(b: Bytes): TableKey {
    if |b| < 8 then TableKey(b, 0) else TableKey(b[..|b| - 8], DecodeFixed64(b[|b| - 8..]))
  }

  lemma KeyRoundTrip(k: TableKey)
    requires k.tag < TWO64
    ensures DecodeKey(EncodeKey(k)) == k
  {
    hide Fixed64, DecodeFixed64;
    var b := EncodeKey(k);
    assert b[|b| - 8..] == Fixed64(k.tag) && b[..|b| - 8] == k.user;
    assert Fixed64(k.tag) + [] == Fixed64(k.tag);
    Fixed64Front(k.tag, []);
  }

  /** `InternalKeyComparator` over the bytewise comparator. */
  predicate KeyLess(a: Bytes, b: Bytes) {
    Precedes(DecodeKey(a), DecodeKey(b))
  }

  lemma KeyLessTransitive()
    ensures forall a, b, c :: KeyLess(a, b) && KeyLess(b, c) ==> KeyLess(a, c)
  {
    hide Precedes, DecodeKey;
    forall a, b, c | KeyLess(a, b) && KeyLess(b, c) ensures KeyLess(a, c) {
      PrecedesTransitive(DecodeKey(a), DecodeKey(b), DecodeKey(c));
    }
  }

  // ---------- handles ----------

  /** Where a block is in the file. */
  datatype Handle = Handle(offset: nat, size: nat)

  function HandleBytes(h: Handle): Bytes {
    Varint(h.offset) + Varint(h.size)
  }

  datatype ParsedHandle = ParsedHandle(handle: Handle, rest: Bytes)

  function DecodeHandle(s: Bytes): Option<ParsedHandle> {
    var o := GetVarint64(s);
    if o.None? then None else
    var z := GetVarint64(o.value.rest);
    if z.None? then None else Some(ParsedHandle(Handle(o.value.value, z.value.value), z.value.rest))
  }

  predicate HandleOk(h: Handle) {
    h.offset < TWO64 && h.size < TWO64
  }

  lemma HandleRoundTrip(h: Handle, rest: Bytes)
    requires HandleOk(h)
    ensures DecodeHandle(HandleBytes(h) + rest) == Some(ParsedHandle(h, rest))
  {
    hide Varint, GetVarint64;
    assert HandleBytes(h) + rest == Varint(h.offset) + (Varint(h.size) + rest);
    Varint64RoundTrip(h.offset, Varint(h.size) + rest);
    Varint64RoundTrip(h.size, rest);
  }

  lemma HandleSize(h: Handle)
    requires HandleOk(h)
    ensures |HandleBytes(h)| <= 20
  {
    hide Varint;
    VarintSize(h.offset);
    VarintSize(h.size);
  }

  // ---------- blocks in a file ----------

  const TRAILER: nat := 5
  const NO_COMPRESSION: byte := 0

  /** A block with its type and its masked checksum, as `WriteRawBlock` writes it. */
  function RawBlock(b: Bytes): (r: Bytes)
    ensures |r| == |b| + TRAILER
  {
    b + [NO_COMPRESSION] + Fixed32(Mask(Crc32c.Extend(Checksum(b), [NO_COMPRESSION])))
  }

  /** `ReadBlock`, with checksums verified; a compressed block is not read here. */
  function ReadBlock(file: Bytes, h: Handle): Option<Bytes> {
    if h.offset + h.size + TRAILER > |file| then None
    else
      var contents := file[h.offset..h.offset + h.size + TRAILER];
      if Unmask(DecodeFixed32(contents[h.size + 1..])) != Checksum(contents[..h.size + 1]) then None
      else if contents[h.size] != NO_COMPRESSION then None
      else Some(contents[..h.size])
  }

  /** A block written at the end of a file is read back, whatever is appended later. */
  lemma RawBlockReads(file: Bytes, b: Bytes, more: Bytes)
    ensures ReadBlock(file + RawBlock(b) + more, Handle(|file|, |b|)) == Some(b)
  {
    hide Crc32c.Extend, Mask, Unmask, Fixed32, DecodeFixed32, Checksum;
    var all := file + RawBlock(b) + more;
    var contents := all[|file|..|file| + |b| + TRAILER];
    assert contents == RawBlock(b);
    var crc := Crc32c.Extend(Checksum(b), [NO_COMPRESSION]);
    assert contents[|b| + 1..] == Fixed32(Mask(crc));
    assert contents[..|b| + 1] == b + [NO_COMPRESSION] && contents[..|b|] == b;
    UnmaskMask(crc);
    FixedRoundTrip(Mask(crc));
    ChecksumMore(b, [NO_COMPRESSION]);
  }

  /** A block that is read stays where it is when the file grows. */
  /** A handle reads a block exactly if the block stands there as it is written, with its type and its checksum. */
  lemma BlockReadIff(file: Bytes, h: Handle, b: Bytes)
    ensures ReadBlock(file, h) == Some(b)
       <==> |b| == h.size && h.offset + h.size + TRAILER <= |file|
            && file[h.offset..h.offset + h.size + TRAILER] == RawBlock(b)
  {
    hide Crc32c.Extend, Checksum, Mask, Unmask, Fixed32, DecodeFixed32;
    if h.offset + h.size + TRAILER <= |file| {
      var s := file[h.offset..h.offset + h.size + TRAILER];
      if s == RawBlock(b) && |b| == h.size {
        RawBlockReads(file[..h.offset], b, file[h.offset + h.size + TRAILER..]);
        assert file[..h.offset] + RawBlock(b) + file[h.offset + h.size + TRAILER..] == file;
      }
      if ReadBlock(file, h) == Some(b) {
        var stored := s[h.size + 1..];
        ChecksumMore(b, [NO_COMPRESSION]);
        assert s[..h.size + 1] == b + [NO_COMPRESSION];
        FixedBack(stored);
        MaskUnmask(DecodeFixed32(stored));
        assert stored[..4] == stored;
        assert s == s[..h.size + 1] + stored;
      }
    }
  }

  lemma ReadStays(file: Bytes, more: Bytes, h: Handle)
    requires ReadBlock(file, h).Some?
    ensures ReadBlock(file + more, h) == ReadBlock(file, h)
  {
    hide Unmask, DecodeFixed32, Checksum;
    assert (file + more)[h.offset..h.offset + h.size + TRAILER] == file[h.offset..h.offset + h.size + TRAILER];
  }

  // ---------- the footer ----------

  const FOOTER: nat := 48
  const MAGIC_LOW: nat := 0x8b80_fb57
  const MAGIC_HIGH: nat := 0xdb47_7524

  function Padding(n: nat): (z: Bytes)
    ensures |z| == n
  {
    seq(n, i => 0)
  }

  /** The handles of the meta-index and the index, padding, and the magic number. */
  function FooterBytes(meta: Handle, index: Handle): (f: Bytes)
    ensures HandleOk(meta) && HandleOk(index) ==> |f| == FOOTER
  {
    var handles := HandleBytes(meta) + HandleBytes(index);
    assert HandleOk(meta) && HandleOk(index) ==> |handles| <= 40 by {
      if HandleOk(meta) && HandleOk(index) {
        HandleSize(meta);
        HandleSize(index);
      }
    }
    handles + Padding(if |handles| <= 40 then 40 - |handles| else 0) + Fixed32(MAGIC_LOW) + Fixed32(MAGIC_HIGH)
  }

  function DecodeFooter(f: Bytes): Option<(Handle, Handle)>
    requires |f| == FOOTER
  {
    if DecodeFixed32(f[40..]) != MAGIC_LOW || DecodeFixed32(f[44..]) != MAGIC_HIGH then None
    else
      var meta := DecodeHandle(f);
      if meta.None? then None
      else
        var index := DecodeHandle(meta.value.rest);
        if index.None? then None else Some((meta.value.handle, index.value.handle))
  }

  lemma FooterRoundTrip(meta: Handle, index: Handle)
    requires HandleOk(meta) && HandleOk(index)
    ensures DecodeFooter(FooterBytes(meta, index)) == Some((meta, index))
  {
    hide Fixed32, DecodeFixed32, HandleBytes, DecodeHandle;
    HandleSize(meta);
    HandleSize(index);
    var a, b := HandleBytes(meta), HandleBytes(index);
    var pad := Padding(40 - |a + b|);
    var f := FooterBytes(meta, index);
    var magic := Fixed32(MAGIC_LOW) + Fixed32(MAGIC_HIGH);
    assert f == a + (b + (pad + magic));
    HandleRoundTrip(meta, b + (pad + magic));
    HandleRoundTrip(index, pad + magic);
    assert f[40..] == Fixed32(MAGIC_LOW) + Fixed32(MAGIC_HIGH) && f[44..] == Fixed32(MAGIC_HIGH) + [];
    FixedFront(MAGIC_LOW, Fixed32(MAGIC_HIGH));
    FixedFront(MAGIC_HIGH, []);
  }
}
