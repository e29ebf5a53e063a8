/** Short keys that separate blocks in a table's index. */
module Separators {
  import opened Bytes

  /** Strings that agree before position i are ordered as their bytes at i are. */
  lemma {:induction false} DiffOrder(a: Str, b: Str, i: nat)
    requires i < |a| && i < |b| && a[..i] == b[..i] && a[i] < b[i]
    ensures StrLess(a, b)
  {
    if i > 0 {
      assert a[0] == a[..i][0] == b[..i][0] == b[0];
      assert a[1..][..i - 1] == a[..i][1..] && b[1..][..i - 1] == b[..i][1..];
      DiffOrder(a[1..], b[1..], i - 1);
    }
  }

  lemma StrLessTransitive(a: Str, b: Str, c: Str)
    requires StrLess(a, b) && StrLess(b, c)
    ensures StrLess(a, c)
  {
    RankOrder(a, b);
    RankOrder(b, c);
    RankOrder(a, c);
  }

  lemma StrLessTotal(a: Str, b: Str)
    ensures StrLess(a, b) || a == b || StrLess(b, a)
    ensures !(StrLess(a, b) && StrLess(b, a)) && !StrLess(a, a)
  {
    RankOrder(a, b);
    RankOrder(b, a);
  }

  /** The strings agree before position i, and there is room for a byte between them at i. */
  ghost predicate RoomAt(start: Str, limit: Str, i: nat) {
    i < |start| && i < |limit| && start[..i] == limit[..i] && 1 + (start[i] as int) < limit[i]
  }

  /** No string below the given length lies in [start, limit). */
  ghost predicate NoneShorter(start: Str, limit: Str, length: nat) {
    forall x: Str | |x| < length :: StrLess(x, start) || !StrLess(x, limit)
  }

  /** A string no longer than a common prefix is on the same side of both strings. */
  lemma {:induction false} SameSide(start: Str, limit: Str, i: nat, x: Str)
    requires i < |start| && i < |limit| && start[..i] == limit[..i] && |x| <= i
    ensures StrLess(x, start) <==> StrLess(x, limit)
    ensures x != start && x != limit
  {
    if x != [] {
      assert start[0] == start[..i][0] == limit[..i][0] == limit[0];
      assert start[1..][..i - 1] == start[..i][1..] && limit[1..][..i - 1] == limit[..i][1..];
      SameSide(start[1..], limit[1..], i - 1, x[1..]);
    }
  }

  lemma RoomIsShortest(start: Str, limit: Str, i: nat)
    requires RoomAt(start, limit, i)
    ensures NoneShorter(start, limit, i + 1)
  {
    forall x: Str | |x| < i + 1
      ensures StrLess(x, start) || !StrLess(x, limit)
    {
      SameSide(start, limit, i, x);
    }
  }

  lemma StayApart(a: Str, b: Str, d: nat, i: nat)
    requires d < |a| && d < |b| && a[d] != b[d]
    ensures d < i <= |a| && i <= |b| ==> a[..i] != b[..i]
  {
    if d < i <= |a| && i <= |b| {
      assert a[..i][d] != b[..i][d];
    }
  }

  /** Bytewise FindShortestSeparator: the shortest string in [start, limit), wherever a byte fits between. */
  method ShortestSeparator(start: Str, limit: Str) returns (r: Str)
    ensures r == start || (StrLess(start, r) && StrLess(r, limit) && NoneShorter(start, limit, |r|))
    ensures |r| <= |start|
    ensures r != start <==> exists i: nat :: RoomAt(start, limit, i)
    ensures forall i: nat | RoomAt(start, limit, i) :: |r| == i + 1
  {
    var n := if |start| < |limit| then |start| else |limit|;
    var diff := 0;
    while diff < n && start[diff] == limit[diff]
      invariant diff <= n && start[..diff] == limit[..diff]
      invariant forall i | 0 <= i < diff :: !RoomAt(start, limit, i)
    {
      assert start[..diff + 1] == start[..diff] + [start[diff]];
      assert limit[..diff + 1] == limit[..diff] + [limit[diff]];
      diff := diff + 1;
    }
    forall i: nat | i != diff
      ensures !RoomAt(start, limit, i)
    {
      if diff < n {
        StayApart(start, limit, diff, i);
      }
    }
    r := start;
    if diff < n {
      var b: nat := start[diff];
      if b < 255 && b + 1 < limit[diff] {
        r := start[..diff] + [b + 1];
        assert r[..diff] == start[..diff];
        assert r[diff] != start[diff];
        DiffOrder(start, r, diff);
        DiffOrder(r, limit, diff);
        assert RoomAt(start, limit, diff);
        RoomIsShortest(start, limit, diff);
      }
    }
  }

  ghost predicate AllOnes(s: Str) {
    forall i | 0 <= i < |s| :: s[i] == 255
  }

  /** A string that goes on after a run of 0xff is larger than every shorter-or-equal string of the run's length. */
  lemma {:induction false} OnesAreLargest(key: Str, i: nat, x: Str)
    requires i < |key| && AllOnes(key[..i]) && |x| <= i
    ensures StrLess(x, key)
  {
    if x != [] {
      assert key[0] == key[..i][0] && key[1..][..i - 1] == key[..i][1..];
      OnesAreLargest(key[1..], i - 1, x[1..]);
    }
  }

  /** Bytewise FindShortSuccessor: the shortest string above the key, unless the key is a run of 0xff. */
  method ShortSuccessor(key: Str) returns (r: Str)
    ensures AllOnes(key) ==> r == key
    ensures !AllOnes(key) ==> StrLess(key, r) && 0 < |r| <= |key| && forall x: Str | |x| < |r| :: StrLess(x, key)
    ensures !AllOnes(key) ==> AllOnes(key[..|r| - 1]) && key[|r| - 1] != 255
  {
    for i := 0 to |key|
      invariant AllOnes(key[..i])
    {
      if key[i] != 255 {
        r := key[..i] + [key[i] + 1];
        assert r[..i] == key[..i];
        DiffOrder(key, r, i);
        forall x: Str | |x| < |r|
          ensures StrLess(x, key)
        {
          OnesAreLargest(key, i, x);
        }
        return;
      }
    }
    assert key[..|key|] == key;
    return key;
  }

  // ----- internal keys

  /** An encoded internal key: user key and packed (sequence number, type). */
  datatype TKey = TKey(user: Str, tag: nat)

  /** PackSequenceAndType(kMaxSequenceNumber, kValueTypeForSeek) */
  const SEEK_TAG: nat := 0xff_ffff_ffff_ffff * 256 + 1

  predicate KeyLess(a: TKey, b: TKey) {
    StrLess(a.user, b.user) || (a.user == b.user && a.tag > b.tag)
  }

  lemma KeyLessOrder(a: TKey, b: TKey, c: TKey)
    ensures KeyLess(a, b) && KeyLess(b, c) ==> KeyLess(a, c)
    ensures KeyLess(a, b) || a == b || KeyLess(b, a)
    ensures !(KeyLess(a, b) && KeyLess(b, a))
  {
    StrLessTotal(a.user, b.user);
    if StrLess(a.user, b.user) && StrLess(b.user, c.user) {
      StrLessTransitive(a.user, b.user, c.user);
    }
  }

  /** Strictly between in user keys: no entry of limit's user key is at or before it. */
  ghost predicate Separates(sep: TKey, start: TKey, limit: TKey) {
    sep == start || (StrLess(start.user, sep.user) && StrLess(sep.user, limit.user))
  }

  /** InternalKeyComparator::FindShortestSeparator */
  method InternalSeparator(start: TKey, limit: TKey) returns (sep: TKey)
    ensures Separates(sep, start, limit)
    ensures sep != start ==>
              sep.tag == SEEK_TAG && |sep.user| < |start.user| && NoneShorter(start.user, limit.user, |sep.user|)
    ensures sep != start <==> exists i: nat :: RoomAt(start.user, limit.user, i) && i + 1 < |start.user|
  {
    var tmp := ShortestSeparator(start.user, limit.user);
    sep := if |tmp| < |start.user| && StrLess(start.user, tmp) then TKey(tmp, SEEK_TAG) else start;
    StrLessTotal(start.user, start.user);
  }

  /** InternalKeyComparator::FindShortSuccessor */
  method InternalSuccessor(key: TKey) returns (s: TKey)
    ensures s == key || (StrLess(key.user, s.user) && |s.user| < |key.user| && s.tag == SEEK_TAG)
    ensures s != key <==> key.user != [] && !AllOnes(key.user[..|key.user| - 1])
  {
    var tmp := ShortSuccessor(key.user);
    s := if |tmp| < |key.user| && StrLess(key.user, tmp) then TKey(tmp, SEEK_TAG) else key;
  }

  /** A separator lies in [last key, next first key) of the internal order. */
  lemma SeparatorInRange(sep: TKey, start: TKey, limit: TKey)
    requires KeyLess(start, limit) && Separates(sep, start, limit)
    ensures !KeyLess(sep, start) && KeyLess(sep, limit)
  {
    StrLessTotal(sep.user, start.user);
  }
}
