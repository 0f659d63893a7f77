/** Internal keys, entries and their order (db/dbformat.h, db/dbformat.cc).

    A user comparator may be any total order on byte strings.  Byte strings are
    countable, so every such order embeds in the rationals; user keys are therefore
    modelled as reals, ordered numerically, which covers every comparator at once. */
module InternalKeys {

  datatype Option<+T> = None | Some(value: T)

  type UserKey = real

  newtype byte = x: int | 0 <= x < 256

  type Bytes = seq<byte>

  /** The largest sequence number: eight of the 64 bits hold the value type. */
  const MAX_SEQUENCE: nat := 0xff_ffff_ffff_ffff

  datatype ValueType = Deletion | Value

  datatype InternalKey = InternalKey(user: UserKey, sequence: nat, kind: ValueType)

  datatype Entry = Entry(key: InternalKey, value: Bytes)

  /** Sequence number and type packed in one word, sequence above the low eight bits. */
  function Tag(k: InternalKey): nat {
    k.sequence * 256 + (if k.kind.Value? then 1 else 0)
  }

  /** Increasing user key, then decreasing tag. */
  predicate Less(a: InternalKey, b: InternalKey) {
    a.user < b.user || (a.user == b.user && Tag(a) > Tag(b))
  }

  predicate LessEq(a: InternalKey, b: InternalKey) {
    a == b || Less(a, b)
  }

  /** The key a read of user key `u` at snapshot `s` seeks to. */
  function LookupKey(u: UserKey, s: nat): InternalKey {
    InternalKey(u, s, Value)
  }

  /** The order is total: distinct keys are ordered one way or the other. */
  lemma LessTotal(a: InternalKey, b: InternalKey)
    ensures a == b || Less(a, b) || Less(b, a)
    ensures !(Less(a, b) && Less(b, a)) && !Less(a, a)
  {
  }

  /** Entries in strictly increasing internal-key order, as tables and memtables hold them. */
  predicate Sorted(es: seq<Entry>) {
    forall i, j :: 0 <= i < j < |es| ==> Less(es[i].key, es[j].key)
  }

  predicate Bounded(es: seq<Entry>, last: nat) {
    forall e :: e in es ==> e.key.sequence <= last
  }
}
