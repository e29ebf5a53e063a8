/**
 DBAddrIter: the user-level iterator that hides deleted and superseded entries. It refines a
 cursor into the list of newest visible, undeleted entries, across changes of direction.
 */
module DbIter {
  import opened Bytes
  import opened InternalKeys

  ghost predicate VisibleAt(es: seq<Entry>, s: SeqNum, i: int) {
    0 <= i < |es| && es[i].key.seqno <= s
  }

  /** Entry i is the newest visible entry of its user key, and a value. */
  ghost predicate IsShown(es: seq<Entry>, s: SeqNum, i: int) {
    && VisibleAt(es, s, i) && es[i].key.kind.Value?
    && forall j | 0 <= j < i && es[j].key.user == es[i].key.user :: !VisibleAt(es, s, j)
  }

  /** The positions of the shown entries among the first n, in order. */
  ghost function Shown(es: seq<Entry>, s: SeqNum, n: nat): (r: seq<nat>)
    requires n <= |es|
    ensures forall a | 0 <= a < |r| :: r[a] < n
  {
    if n == 0 then [] else Shown(es, s, n - 1) + if IsShown(es, s, n - 1) then [n - 1] else []
  }

  lemma {:induction false} ShownMember(es: seq<Entry>, s: SeqNum, n: nat, k: int)
    requires n <= |es|
    ensures k in Shown(es, s, n) <==> 0 <= k < n && IsShown(es, s, k)
  {
    if n > 0 {
      ShownMember(es, s, n - 1, k);
    }
  }

  lemma {:induction false} ShownAscends(es: seq<Entry>, s: SeqNum, n: nat)
    requires n <= |es|
    ensures forall a, b | 0 <= a < b < |Shown(es, s, n)| :: Shown(es, s, n)[a] < Shown(es, s, n)[b]
  {
    if n > 0 {
      ShownAscends(es, s, n - 1);
    }
  }

  lemma ShownAt(es: seq<Entry>, s: SeqNum, c: nat)
    requires c < |Shown(es, s, |es|)|
    ensures IsShown(es, s, Shown(es, s, |es|)[c])
  {
    ShownMember(es, s, |es|, Shown(es, s, |es|)[c]);
  }

  lemma IndexOfShown(es: seq<Entry>, s: SeqNum, p: int) returns (c: nat)
    requires IsShown(es, s, p)
    ensures c < |Shown(es, s, |es|)| && Shown(es, s, |es|)[c] == p
  {
    ShownMember(es, s, |es|, p);
    var l := Shown(es, s, |es|);
    c :| 0 <= c < |l| && l[c] == p;
  }

  lemma ShownOrder(es: seq<Entry>, s: SeqNum, a: nat, b: nat)
    requires a < |Shown(es, s, |es|)| && b < |Shown(es, s, |es|)|
    ensures a < b <==> Shown(es, s, |es|)[a] < Shown(es, s, |es|)[b]
  {
    ShownAscends(es, s, |es|);
  }

  /** Among the positions above lo and below hi only q, if anything, is shown. */
  ghost predicate OnlyShown(es: seq<Entry>, s: SeqNum, lo: int, hi: int, found: bool, q: int) {
    && (found ==> lo < q < hi && IsShown(es, s, q))
    && forall k | lo < k < hi && IsShown(es, s, k) :: found && k == q
  }

  /** The first shown position after the c-th one is the (c+1)-th. */
  lemma StepForward(es: seq<Entry>, s: SeqNum, c: int, lo: int, found: bool, q: int)
    requires -1 <= c < |Shown(es, s, |es|)| && lo == if c < 0 then -1 else Shown(es, s, |es|)[c]
    requires found ==> lo < q && OnlyShown(es, s, lo, q + 1, true, q)
    requires !found ==> OnlyShown(es, s, lo, |es|, false, q)
    ensures found <==> c + 1 < |Shown(es, s, |es|)|
    ensures found ==> Shown(es, s, |es|)[c + 1] == q
  {
    var l := Shown(es, s, |es|);
    if found {
      var i := IndexOfShown(es, s, q);
      if c >= 0 { ShownOrder(es, s, c, i); }
      ShownAt(es, s, c + 1);
      if c >= 0 { ShownOrder(es, s, c, c + 1); }
      ShownOrder(es, s, i, c + 1);
      ShownOrder(es, s, c + 1, i);
    } else if c + 1 < |l| {
      ShownAt(es, s, c + 1);
      if c >= 0 { ShownOrder(es, s, c, c + 1); }
    }
  }

  /** The last shown position before the c-th one is the (c-1)-th. */
  lemma StepBackward(es: seq<Entry>, s: SeqNum, c: nat, hi: int, found: bool, q: int)
    requires c <= |Shown(es, s, |es|)| && hi == if c == |Shown(es, s, |es|)| then |es| else Shown(es, s, |es|)[c]
    requires found ==> q < hi && OnlyShown(es, s, q - 1, hi, true, q)
    requires !found ==> OnlyShown(es, s, -1, hi, false, q)
    ensures found <==> c > 0
    ensures found ==> Shown(es, s, |es|)[c - 1] == q
  {
    var l := Shown(es, s, |es|);
    if found {
      var i := IndexOfShown(es, s, q);
      if c < |l| { ShownOrder(es, s, i, c); }
      ShownAt(es, s, c - 1);
      if c < |l| { ShownOrder(es, s, c - 1, c); }
      ShownOrder(es, s, i, c - 1);
      ShownOrder(es, s, c - 1, i);
    } else if c > 0 {
      ShownAt(es, s, c - 1);
      if c < |l| { ShownOrder(es, s, c - 1, c); }
    }
  }

  lemma KeysAscend(es: seq<Entry>, i: int, j: int)
    requires Sorted(es)
    ensures 0 <= i <= j < |es| ==> es[i].key.user <= es[j].key.user
  {
    if 0 <= i < j < |es| { assert Before(es[i].key, es[j].key); }
  }

  /** Shown entries at different positions have different user keys, in order. */
  lemma ShownApart(es: seq<Entry>, s: SeqNum, p: int)
    requires Sorted(es) && IsShown(es, s, p)
    ensures forall k | p < k && IsShown(es, s, k) :: es[k].key.user > es[p].key.user
    ensures forall k | 0 <= k < |es| && es[k].key.user > es[p].key.user :: p < k
  {
    forall k | p < k && IsShown(es, s, k)
      ensures es[k].key.user > es[p].key.user
    {
      assert Before(es[p].key, es[k].key);
    }
  }

  datatype Direction = Forward | Reverse

  class DBAddrIter {
    /** The internal iterator: a sorted stream and a position in it, -1 when it is not valid. */
    const es: seq<Entry>
    const sequence: SeqNum
    var pos: int

    var direction: Direction
    var valid: bool
    var savedKey: UserKey
    var savedValue: Str

    /** Where the abstract cursor is: an index into the shown entries, or -1. */
    ghost var cursor: int

    constructor (entries: seq<Entry>, s: SeqNum)
      requires Sorted(entries)
      ensures es == entries && sequence == s && Inv() && cursor == -1
    {
      es, sequence, pos, direction, valid, savedKey, savedValue, cursor := entries, s, -1, Forward, false, 0.0, [], -1;
    }

    /** The shown entries, as positions in the stream. */
    ghost function List(): seq<nat> {
      Shown(es, sequence, |es|)
    }

    /** In reverse the internal iterator is before every visible entry of an earlier user key... */
    ghost predicate BehindSaved()
      reads this
      requires -1 <= pos < |es|
    {
      && (pos >= 0 ==> es[pos].key.user < savedKey)
      && forall j | pos < j < |es| && es[j].key.user < savedKey :: !VisibleAt(es, sequence, j)
    }

    ghost predicate Inv()
      reads this
    {
      && Sorted(es) && -1 <= pos < |es| && -1 <= cursor < |List()|
      && (valid <==> cursor >= 0)
      && (valid && direction.Forward? ==> pos == List()[cursor])
      && (valid && direction.Reverse? ==>
            && 0 <= List()[cursor] < |es|
            && savedKey == es[List()[cursor]].key.user && savedValue == es[List()[cursor]].value
            && BehindSaved())
    }

    /** DBAddrIter::key */
    function Key(): UserKey
      requires Inv() && valid
      reads this
      ensures 0 <= List()[cursor] < |es| && Key() == es[List()[cursor]].key.user
    {
      if direction.Forward? then es[pos].key.user else savedKey
    }

    /** DBAddrIter::value */
    function Value(): Str
      requires Inv() && valid
      reads this
      ensures 0 <= List()[cursor] < |es| && Value() == es[List()[cursor]].value
    {
      if direction.Forward? then es[pos].value else savedValue
    }

    // ----- the internal iterator

    method IterNext()
      requires 0 <= pos < |es|
      modifies this`pos
      ensures pos == if old(pos) + 1 < |es| then old(pos) + 1 else -1
    {
      pos := if pos + 1 < |es| then pos + 1 else -1;
    }

    method IterPrev()
      requires 0 <= pos < |es|
      modifies this`pos
      ensures pos == old(pos) - 1
    {
      pos := pos - 1;
    }

    /** Seek of the internal iterator: the first entry that is not before the target's seek key. */
    method IterSeek(target: UserKey)
      requires Sorted(es)
      modifies this`pos
      ensures -1 <= pos < |es|
      ensures forall j | 0 <= j < (if pos < 0 then |es| else pos) ::
                es[j].key.user < target || (es[j].key.user == target && !VisibleAt(es, sequence, j))
      ensures pos >= 0 ==> es[pos].key.user >= target
    {
      var i := 0;
      while i < |es| && Less(es[i].key, SeekKey(target, sequence))
        invariant 0 <= i <= |es|
        invariant forall j | 0 <= j < i ::
                    es[j].key.user < target || (es[j].key.user == target && !VisibleAt(es, sequence, j))
      {
        SeekKeyOrder(target, sequence, es[i].key);
        i := i + 1;
      }
      pos := if i < |es| then i else -1;
    }

    // ----- forward scanning

    /** Nothing but the entries to be skipped may precede the ones scanned for. */
    ghost predicate ScanFrom(start: int, skipping: bool, skip: UserKey)
      requires 0 <= start <= |es|
    {
      if skipping then
        && (forall k | start <= k < |es| && es[k].key.user < skip :: !VisibleAt(es, sequence, k))
        && forall j | 0 <= j < start :: es[j].key.user <= skip
      else
        start < |es| ==>
          forall j | 0 <= j < start && es[j].key.user == es[start].key.user :: !VisibleAt(es, sequence, j)
    }

    /**
     DBAddrIter::FindNextUserEntry: stop at the first entry from the current position on that is
     shown and not to be skipped.
     */
    method FindNextUserEntry(skip0: bool, key0: UserKey)
      requires Sorted(es) && 0 <= pos < |es| && direction.Forward? && ScanFrom(pos, skip0, key0)
      modifies this`pos, this`valid, this`savedKey
      ensures -1 <= pos < |es|
      ensures valid ==> old(pos) <= pos && IsShown(es, sequence, pos) && (skip0 ==> es[pos].key.user > key0)
      ensures forall k | old(pos) <= k < (if valid then pos else |es|) && IsShown(es, sequence, k) ::
                skip0 && es[k].key.user <= key0
    {
      ghost var start := pos;
      var skipping, skip := skip0, key0;
      while true
        invariant start <= pos < |es|
        invariant forall k | start <= k < pos && IsShown(es, sequence, k) :: skip0 && es[k].key.user <= key0
        invariant skipping ==> forall k | pos <= k < |es| && es[k].key.user <= skip && IsShown(es, sequence, k) ::
                    skip0 && es[k].key.user <= key0
        invariant forall j, k | 0 <= j < pos <= k < |es| && es[j].key.user == es[k].key.user && !(skipping &&
                    es[k].key.user <= skip)
                    :: !VisibleAt(es, sequence, j)
        invariant skip0 ==> skipping && forall k | pos <= k < |es| && es[k].key.user <= key0 ::
                    es[k].key.user <= skip || !VisibleAt(es, sequence, k)
        decreases |es| - pos
      {
        if es[pos].key.seqno <= sequence {
          if es[pos].key.kind.Deletion? {
            skip, skipping := es[pos].key.user, true;
          } else if skipping && es[pos].key.user <= skip {
            // entry hidden
          } else {
            valid, savedKey := true, 0.0;
            return;
          }
        }
        if pos + 1 == |es| {
          pos := -1;
          break;
        }
        pos := pos + 1;
      }
      savedKey, valid := 0.0, false;
    }

    // ----- reverse scanning

    /** The lowest visible entry at or above p that has been passed on the way down from start. */
    ghost predicate Passed(p: int, start: int, x: int)
    {
      && p < x <= start && VisibleAt(es, sequence, x)
      && forall k | p < k < x :: !VisibleAt(es, sequence, k)
    }

    /**
     DBAddrIter::FindPrevUserEntry: stop past the last shown entry at or before the current
     position, having saved its key and value.
     */
    method FindPrevUserEntry() returns (ghost x: int)
      requires Sorted(es) && -1 <= pos < |es| && direction.Reverse?
      modifies this`pos, this`valid, this`savedKey, this`savedValue, this`direction
      ensures -1 <= pos < |es|
      ensures valid ==> 0 <= x <= old(pos) && IsShown(es, sequence, x) && direction.Reverse?
      ensures valid ==> forall k | x < k <= old(pos) :: !IsShown(es, sequence, k)
      ensures valid ==> savedKey == es[x].key.user && savedValue == es[x].value && BehindSaved()
      ensures !valid ==> forall k | 0 <= k <= old(pos) :: !IsShown(es, sequence, k)
    {
      ghost var start := pos;
      x := -1;
      var valueType := Deletion;
      while pos >= 0
        invariant -1 <= pos <= start && direction.Reverse?
        invariant x < 0 ==> valueType.Deletion? && forall k | pos < k <= start :: !VisibleAt(es, sequence, k)
        invariant x >= 0 ==> Passed(pos, start, x) && valueType == es[x].key.kind
        invariant forall k | pos < k <= start && IsShown(es, sequence, k) :: k == x && valueType.Value?
        invariant valueType.Value? ==> savedKey == es[x].key.user && savedValue == es[x].value
        decreases pos
      {
        if es[pos].key.seqno <= sequence {
          if valueType.Value? && es[pos].key.user < savedKey {
            break;
          }
          valueType := es[pos].key.kind;
          if valueType.Deletion? {
            savedKey, savedValue := 0.0, [];
          } else {
            savedKey, savedValue := es[pos].key.user, es[pos].value;
          }
          x := pos;
        }
        IterPrev();
      }
      if valueType.Deletion? {
        valid, savedKey, savedValue, direction := false, 0.0, [], Forward;
      } else {
        valid := true;
      }
    }

    // ----- the operations

    /** DBAddrIter::SeekToFirst */
    method SeekToFirst()
      requires Inv()
      modifies this
      ensures Inv() && cursor == if List() == [] then -1 else 0
    {
      direction, savedValue := Forward, [];
      pos := if es == [] then -1 else 0;
      if pos >= 0 {
        FindNextUserEntry(false, savedKey);
      } else {
        valid := false;
      }
      StepForward(es, sequence, -1, -1, valid, pos);
      cursor := if valid then 0 else -1;
    }

    /** DBAddrIter::SeekToLast */
    method SeekToLast()
      requires Inv()
      modifies this
      ensures Inv() && cursor == |List()| - 1
    {
      direction, savedValue := Reverse, [];
      pos := |es| - 1;
      ghost var x := FindPrevUserEntry();
      StepBackward(es, sequence, |List()|, |es|, valid, x);
      cursor := |List()| - 1;
    }

    /** DBAddrIter::Seek: the first shown entry whose user key is not before the target. */
    method Seek(target: UserKey)
      requires Inv()
      modifies this
      ensures Inv()
      ensures cursor >= 0 ==> Key() >= target
      ensures forall c | 0 <= c < |List()| && (cursor < 0 || c < cursor) :: es[List()[c]].key.user < target
    {
      direction, savedValue, savedKey := Forward, [], target;
      IterSeek(target);
      if pos >= 0 {
        FindNextUserEntry(false, savedKey);
      } else {
        valid := false;
      }
      cursor := -1;
      if valid {
        ghost var c := IndexOfShown(es, sequence, pos);
        cursor := c;
      }
      forall c | 0 <= c < |List()| && (cursor < 0 || c < cursor)
        ensures es[List()[c]].key.user < target
      {
        ShownAt(es, sequence, c);
        if cursor >= 0 { ShownOrder(es, sequence, c, cursor); }
      }
    }

    /** DBAddrIter::Next, from either direction. */
    method Next()
      requires Inv() && valid
      modifies this
      ensures Inv() && cursor == if old(cursor) + 1 < |List()| then old(cursor) + 1 else -1
    {
      ghost var c, p := cursor, List()[cursor];
      ShownAt(es, sequence, c);
      LeaveCurrent(p);
      if pos < 0 {
        valid, savedKey, cursor := false, 0.0, -1;
        StepForward(es, sequence, c, p, false, pos);
        return;
      }
      FindNextUserEntry(true, savedKey);
      ShownApart(es, sequence, p);
      StepForward(es, sequence, c, p, valid, pos);
      cursor := if valid then c + 1 else -1;
    }

    /** The part of Next that moves off the current entry, switching to forward if necessary. */
    method LeaveCurrent(ghost p: int)
      requires Sorted(es) && -1 <= pos < |es| && IsShown(es, sequence, p)
      requires direction.Forward? ==> pos == p
      requires direction.Reverse? ==> savedKey == es[p].key.user && BehindSaved()
      modifies this`pos, this`savedKey, this`direction
      ensures direction.Forward? && savedKey == es[p].key.user && -1 <= pos < |es|
      ensures pos >= 0 ==> pos <= p + 1 && ScanFrom(pos, true, savedKey)
      ensures pos < 0 ==> p + 1 == |es|
    {
      if direction.Reverse? {
        direction := Forward;
        KeysAscend(es, p, pos);
        if pos < 0 {
          pos := if es == [] then -1 else 0;
        } else {
          IterNext();
        }
      } else {
        savedKey := es[pos].key.user;
        IterNext();
      }
      forall j | 0 <= j < pos
        ensures es[j].key.user <= savedKey
      {
        KeysAscend(es, j, p);
      }
      forall j | 0 <= j < |es|
        ensures p <= j ==> es[j].key.user >= savedKey
      {
        KeysAscend(es, p, j);
      }
    }

    /** DBAddrIter::Prev, from either direction. */
    method Prev()
      requires Inv() && valid
      modifies this
      ensures Inv() && cursor == old(cursor) - 1
    {
      ghost var c, p := cursor, List()[cursor];
      ShownAt(es, sequence, c);
      var found := TurnBack(p);
      if !found {
        StepBackward(es, sequence, c, p, false, pos);
        valid, savedKey, savedValue, cursor := false, 0.0, [], -1;
        return;
      }
      ghost var x := FindPrevUserEntry();
      StepBackward(es, sequence, c, p, valid, x);
      cursor := c - 1;
    }

    /** The part of Prev before the scan: leave the current user key if the iterator was going forward. */
    method TurnBack(ghost p: int) returns (found: bool)
      requires Sorted(es) && -1 <= pos < |es| && IsShown(es, sequence, p)
      requires direction.Forward? ==> pos == p
      requires direction.Reverse? ==> savedKey == es[p].key.user && BehindSaved() && pos < p
      modifies this`pos, this`savedKey, this`direction
      ensures -1 <= pos < p && (found ==> direction.Reverse?) && (!found ==> pos < 0 && direction.Forward?)
      ensures forall k | pos < k < p :: !IsShown(es, sequence, k)
    {
      found := true;
      if direction.Forward? {
        savedKey := es[pos].key.user;
        found := BackOverUserKey(p);
        if !found {
          return;
        }
        direction := Reverse;
      }
      ShownBelow(es, sequence, p, pos);
    }

    /** The part of Prev that leaves the entries of the current user key when switching to reverse. */
    method BackOverUserKey(ghost p: int) returns (found: bool)
      requires Sorted(es) && 0 <= pos < |es| && pos == p && savedKey == es[p].key.user && IsShown(es, sequence, p)
      modifies this`pos
      ensures found <==> pos >= 0
      ensures -1 <= pos < p && (pos >= 0 ==> es[pos].key.user < savedKey)
      ensures forall k | pos < k < p :: es[k].key.user == savedKey && !IsShown(es, sequence, k)
    {
      IterPrev();
      while pos >= 0 && !(es[pos].key.user < savedKey)
        invariant -1 <= pos < p
        invariant forall k | pos < k < p :: es[k].key.user == savedKey
        decreases pos
      {
        assert Before(es[pos].key, es[p].key);
        IterPrev();
      }
      found := pos >= 0;
    }
  }

  /** Entries between a position of an earlier user key and a shown entry are not shown. */
  lemma ShownBelow(es: seq<Entry>, s: SeqNum, p: int, q: int)
    requires Sorted(es) && IsShown(es, s, p) && -1 <= q < p
    requires forall j | q < j < p && es[j].key.user < es[p].key.user :: !VisibleAt(es, s, j)
    ensures forall k | q < k < p :: !IsShown(es, s, k)
  {
    forall k | q < k < p
      ensures !IsShown(es, s, k)
    {
      assert Before(es[k].key, es[p].key);
    }
  }

  /** The shown entries are the answers of point reads: iterating lists exactly the readable pairs. */
  lemma ShownIsRead(es: seq<Entry>, s: SeqNum, u: UserKey, x: Str)
    requires Sorted(es)
    ensures Reads(Elems(es), u, s, Some(x)) <==>
            exists k | IsShown(es, s, k) :: es[k].key.user == u && es[k].value == x
  {
    if Reads(Elems(es), u, s, Some(x)) {
      var e :| IsNewest(Elems(es), u, s, e) && e.key.kind.Value? && e.value == x;
      var k :| 0 <= k < |es| && es[k] == e;
      forall j | 0 <= j < k && es[j].key.user == u
        ensures !VisibleAt(es, s, j)
      {
        assert Before(es[j].key, es[k].key) && es[j] in Elems(es);
      }
      assert IsShown(es, s, k);
    }
    if k :| IsShown(es, s, k) && es[k].key.user == u && es[k].value == x {
      forall d | d in Elems(es) && d.key.user == u && d.key.seqno <= s
        ensures d.key.seqno <= es[k].key.seqno
      {
        var j :| 0 <= j < |es| && es[j] == d;
        assert VisibleAt(es, s, j);
        assert k < j ==> Before(es[k].key, es[j].key);
      }
      assert IsNewest(Elems(es), u, s, es[k]);
    }
  }
}
