/**
 Internal keys (user key, sequence number, type), entries, and what a read at a snapshot means.
 */
module InternalKeys {
  import opened Bytes

  /** Only the comparator's order matters; `Bytes.RankOrder` places byte strings in it. */
  type UserKey = real

  /** kMaxSequenceNumber: eight bits of the packed tag are left for the type. */
  const MAX_SEQ: nat := 0xFF_FFFF_FFFF_FFFF

  type SeqNum = n: nat | n <= MAX_SEQ

  datatype Kind = Deletion | Value

  datatype IKey = IKey(user: UserKey, seqno: SeqNum, kind: Kind)

  datatype Entry = Entry(key: IKey, value: Str)

  /** PackSequenceAndType. */
  function Pack(k: IKey): nat {
    k.seqno * 256 + if k.kind.Value? then 1 else 0
  }

  /** InternalKeyComparator::Compare(a, b) < 0. */
  predicate Less(a: IKey, b: IKey) {
    a.user < b.user || (a.user == b.user && Pack(a) > Pack(b))
  }

  /**
   The order of stored entries. No two entries of a user key share a sequence number, so stored
   entries are ordered by user key and then strictly by decreasing sequence number.
   */
  predicate Before(a: IKey, b: IKey) {
    a.user < b.user || (a.user == b.user && a.seqno > b.seqno)
  }

  /** The key a lookup at a snapshot seeks to (kValueTypeForSeek is the largest type). */
  function SeekKey(u: UserKey, snapshot: SeqNum): IKey {
    IKey(u, snapshot, Value)
  }

  /** Where an entry stands relative to a seek key: exactly the visible entries of `u` and all
      entries of later user keys are at or after it. */
  lemma SeekKeyOrder(u: UserKey, s: SeqNum, k: IKey)
    ensures Less(k, SeekKey(u, s)) <==> k.user < u || (k.user == u && k.seqno > s)
  {}

  predicate Sorted(es: seq<Entry>) {
    forall i, j | 0 <= i < j < |es| :: Before(es[i].key, es[j].key)
  }

  ghost function Elems(es: seq<Entry>): set<Entry> {
    set e | e in es
  }

  /** No two entries of the set share user key and sequence number. */
  ghost predicate DistinctKeys(s: set<Entry>) {
    forall d, e | d in s && e in s && d.key.user == e.key.user && d.key.seqno == e.key.seqno :: d == e
  }

  /** `e` is the newest entry of `u` that a reader at `snapshot` may see. */
  ghost predicate IsNewest(s: set<Entry>, u: UserKey, snapshot: SeqNum, e: Entry) {
    && e in s && e.key.user == u && e.key.seqno <= snapshot
    && forall d | d in s && d.key.user == u && d.key.seqno <= snapshot :: d.key.seqno <= e.key.seqno
  }

  /**
   The plain meaning of a read: the value of the newest visible entry, or nothing when there is
   none or it is a deletion.
   */
  ghost predicate Reads(s: set<Entry>, u: UserKey, snapshot: SeqNum, r: Option<Str>) {
    match r
    case Some(x) => exists e :: IsNewest(s, u, snapshot, e) && e.key.kind.Value? && e.value == x
    case None => forall e :: IsNewest(s, u, snapshot, e) ==> e.key.kind.Deletion?
  }

  /** Two sets of entries that every reader at or above `floor` sees alike. */
  ghost predicate SameReads(s: set<Entry>, t: set<Entry>, floor: SeqNum) {
    forall u: UserKey, snapshot: SeqNum, r: Option<Str> | floor <= snapshot ::
      Reads(s, u, snapshot, r) <==> Reads(t, u, snapshot, r)
  }

  /** There is a newest visible entry as soon as there is any visible entry. */
  lemma {:induction false} NewestExists(s: set<Entry>, u: UserKey, snapshot: SeqNum, d: Entry) returns (e: Entry)
    requires d in s && d.key.user == u && d.key.seqno <= snapshot
    ensures IsNewest(s, u, snapshot, e) && d.key.seqno <= e.key.seqno
    decreases snapshot - d.key.seqno
  {
    if x :| x in s && x.key.user == u && d.key.seqno < x.key.seqno <= snapshot {
      e := NewestExists(s, u, snapshot, x);
    } else {
      e := d;
    }
  }

  /** A read has exactly one answer. */
  lemma {:induction false} ReadsFunctional(s: set<Entry>, u: UserKey, snapshot: SeqNum) returns (r: Option<Str>)
    requires DistinctKeys(s)
    ensures forall x :: Reads(s, u, snapshot, x) <==> x == r
  {
    if d :| d in s && d.key.user == u && d.key.seqno <= snapshot {
      var e := NewestExists(s, u, snapshot, d);
      r := if e.key.kind.Value? then Some(e.value) else None;
      assert forall x :: IsNewest(s, u, snapshot, x) <==> x == e;
    } else {
      r := None;
      assert forall x :: !IsNewest(s, u, snapshot, x);
    }
  }
}
