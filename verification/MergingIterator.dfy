/**
 MergingIterator: many sorted children seen as one sorted stream. It refines a cursor into the
 merged stream, and repositions the other children when it changes direction.
 */
module MergingIterator {
  import opened InternalKeys

  // ----- the reference: the sorted union of the children

  function InsertSorted(es: seq<Entry>, e: Entry): seq<Entry> {
    if es == [] then [e]
    else if Before(e.key, es[0].key) then [e] + es
    else [es[0]] + InsertSorted(es[1..], e)
  }

  function InsertAll(es: seq<Entry>, more: seq<Entry>): seq<Entry>
    decreases more
  {
    if more == [] then es else InsertAll(InsertSorted(es, more[0]), more[1..])
  }

  function Union(children: seq<seq<Entry>>): seq<Entry> {
    if children == [] then [] else InsertAll(Union(children[1..]), children[0])
  }

  predicate SameKey(a: Entry, b: Entry) {
    a.key.user == b.key.user && a.key.seqno == b.key.seqno
  }

  lemma {:induction false} InsertIsSorted(es: seq<Entry>, e: Entry)
    requires Sorted(es) && forall d | d in es :: !SameKey(d, e)
    ensures Sorted(InsertSorted(es, e))
    ensures forall x :: x in InsertSorted(es, e) <==> x in es || x == e
  {
    if es != [] {
      assert es == [es[0]] + es[1..];
      if !Before(e.key, es[0].key) {
        InsertIsSorted(es[1..], e);
        var r := InsertSorted(es[1..], e);
        forall i | 0 <= i < |r|
          ensures Before(es[0].key, r[i].key)
        {
          assert r[i] in r && es[0] in es;
          if r[i] != e { var j :| 0 <= j < |es| - 1 && es[1..][j] == r[i]; }
        }
      }
    }
  }

  lemma {:induction false} InsertAllIsSorted(es: seq<Entry>, more: seq<Entry>)
    requires Sorted(es) && Sorted(more) && forall d, e | d in es && e in more :: !SameKey(d, e)
    ensures Sorted(InsertAll(es, more))
    ensures forall x :: x in InsertAll(es, more) <==> x in es || x in more
    decreases more
  {
    if more != [] {
      assert more == [more[0]] + more[1..];
      InsertIsSorted(es, more[0]);
      forall e | e in more[1..]
        ensures !SameKey(more[0], e)
      {
        var i :| 0 <= i < |more| - 1 && more[1..][i] == e;
        assert Before(more[0].key, more[i + 1].key);
      }
      InsertAllIsSorted(InsertSorted(es, more[0]), more[1..]);
    }
  }

  /** Sorted children, no key in two of them. */
  ghost predicate ChildrenOk(children: seq<seq<Entry>>) {
    && (forall c | 0 <= c < |children| :: Sorted(children[c]))
    && forall c, d, i, j | 0 <= c < d < |children| && 0 <= i < |children[c]| && 0 <= j < |children[d]| ::
         !SameKey(children[c][i], children[d][j])
  }

  ghost predicate InSome(children: seq<seq<Entry>>, e: Entry) {
    exists c, i | 0 <= c < |children| && 0 <= i < |children[c]| :: children[c][i] == e
  }

  lemma {:induction false} UnionIsSorted(children: seq<seq<Entry>>)
    requires ChildrenOk(children)
    ensures Sorted(Union(children))
    ensures forall e :: e in Union(children) <==> InSome(children, e)
  {
    if children != [] {
      var rest := children[1..];
      assert ChildrenOk(rest);
      UnionIsSorted(rest);
      forall d, e | d in Union(rest) && e in children[0]
        ensures !SameKey(d, e)
      {
        var c, i :| 0 <= c < |rest| && 0 <= i < |rest[c]| && rest[c][i] == d;
        var j :| 0 <= j < |children[0]| && children[0][j] == e;
        assert !SameKey(children[0][j], children[c + 1][i]);
      }
      InsertAllIsSorted(Union(rest), children[0]);
      forall e
        ensures InSome(children, e) <==> InSome(rest, e) || e in children[0]
      {
        if InSome(rest, e) {
          var c, i :| 0 <= c < |rest| && 0 <= i < |rest[c]| && rest[c][i] == e;
          assert children[c + 1][i] == e;
        }
        if e in children[0] {
          var j :| 0 <= j < |children[0]| && children[0][j] == e;
        }
        if c, i :| 0 <= c < |children| && 0 <= i < |children[c]| && children[c][i] == e {
          assert c > 0 ==> rest[c - 1][i] == e;
        }
      }
    }
  }

  // ----- positions in a child: -1 means the child is not valid

  /** The child stands at its first entry that is not before k. */
  ghost predicate FirstAfter(child: seq<Entry>, k: IKey, p: int) {
    && -1 <= p < |child|
    && (p >= 0 ==> !Less(child[p].key, k))
    && forall j | 0 <= j < (if p < 0 then |child| else p) :: Less(child[j].key, k)
  }

  /** The child stands at its last entry that is not after k. */
  ghost predicate LastBefore(child: seq<Entry>, k: IKey, p: int) {
    && -1 <= p < |child|
    && (p >= 0 ==> !Less(k, child[p].key))
    && forall j | p < j < |child| :: Less(k, child[j].key)
  }

  ghost predicate PositionsIn(cs: seq<seq<Entry>>, p: seq<int>) {
    |p| == |cs| && forall c | 0 <= c < |p| :: -1 <= p[c] < |cs[c]|
  }

  // parts of the key order that a scan can have passed
  ghost function Nothing(): Entry -> bool { e => false }
  ghost function Everything(): Entry -> bool { e => true }
  ghost function Below(k: IKey): Entry -> bool { (e: Entry) => Less(e.key, k) }
  ghost function UpTo(k: IKey): Entry -> bool { (e: Entry) => !Less(k, e.key) }

  /** `passed` is a lower part of the key order. */
  ghost predicate LowerPart(passed: Entry -> bool) {
    forall x, y | passed(x) && !passed(y) :: Less(x.key, y.key)
  }

  /** Each child stands at its first entry that has not been passed. */
  ghost predicate AtFirst(cs: seq<seq<Entry>>, p: seq<int>, passed: Entry -> bool)
    requires PositionsIn(cs, p)
  {
    forall c, i | 0 <= c < |cs| && 0 <= i < |cs[c]| :: passed(cs[c][i]) <==> p[c] < 0 || i < p[c]
  }

  /** Each child stands at its last entry of the passed part. */
  ghost predicate AtLast(cs: seq<seq<Entry>>, p: seq<int>, passed: Entry -> bool)
    requires PositionsIn(cs, p)
  {
    forall c, i | 0 <= c < |cs| && 0 <= i < |cs[c]| :: passed(cs[c][i]) <==> i <= p[c]
  }

  ghost predicate Smallest(cs: seq<seq<Entry>>, p: seq<int>, cur: int)
    requires PositionsIn(cs, p)
  {
    && -1 <= cur < |cs|
    && (cur < 0 ==> forall c | 0 <= c < |cs| :: p[c] < 0)
    && (cur >= 0 ==>
          p[cur] >= 0 && forall c | 0 <= c < |cs| && p[c] >= 0 :: !Less(cs[c][p[c]].key, cs[cur][p[cur]].key))
  }

  ghost predicate Largest(cs: seq<seq<Entry>>, p: seq<int>, cur: int)
    requires PositionsIn(cs, p)
  {
    && -1 <= cur < |cs|
    && (cur < 0 ==> forall c | 0 <= c < |cs| :: p[c] < 0)
    && (cur >= 0 ==>
          p[cur] >= 0 && forall c | 0 <= c < |cs| && p[c] >= 0 :: !Less(cs[cur][p[cur]].key, cs[c][p[c]].key))
  }

  lemma UnionPosition(cs: seq<seq<Entry>>, c: nat, i: nat) returns (m: nat)
    requires ChildrenOk(cs) && c < |cs| && i < |cs[c]|
    ensures m < |Union(cs)| && Union(cs)[m] == cs[c][i]
  {
    UnionIsSorted(cs);
    assert InSome(cs, cs[c][i]);
    m :| 0 <= m < |Union(cs)| && Union(cs)[m] == cs[c][i];
  }

  lemma ChildPosition(cs: seq<seq<Entry>>, m: nat) returns (c: nat, i: nat)
    requires ChildrenOk(cs) && m < |Union(cs)|
    ensures c < |cs| && i < |cs[c]| && cs[c][i] == Union(cs)[m]
  {
    UnionIsSorted(cs);
    assert Union(cs)[m] in Union(cs);
    c, i :| 0 <= c < |cs| && 0 <= i < |cs[c]| && cs[c][i] == Union(cs)[m];
  }

  lemma ChildOrder(cs: seq<seq<Entry>>, c: nat, i: nat, j: int)
    requires ChildrenOk(cs) && c < |cs| && i < |cs[c]| && j < |cs[c]|
    ensures 0 <= j < i ==> Less(cs[c][j].key, cs[c][i].key)
    ensures i < j ==> Less(cs[c][i].key, cs[c][j].key)
  {
    assert Sorted(cs[c]);
    assert 0 <= j < i ==> Before(cs[c][j].key, cs[c][i].key);
    assert i < j ==> Before(cs[c][i].key, cs[c][j].key);
  }

  /** The order of the union is the order of the keys. */
  lemma UnionSplit(cs: seq<seq<Entry>>, a: nat, b: nat)
    requires ChildrenOk(cs) && a < |Union(cs)| && b < |Union(cs)|
    ensures Less(Union(cs)[a].key, Union(cs)[b].key) <==> a < b
  {
    UnionIsSorted(cs);
    assert a < b ==> Before(Union(cs)[a].key, Union(cs)[b].key);
    assert b < a ==> Before(Union(cs)[b].key, Union(cs)[a].key);
  }

  /** Choosing the smallest child lands on the first entry of the union that has not been passed. */
  lemma ForwardLands(cs: seq<seq<Entry>>, p: seq<int>, cur: int, passed: Entry -> bool) returns (m: int)
    requires ChildrenOk(cs) && PositionsIn(cs, p) && LowerPart(passed) && AtFirst(cs, p, passed) && Smallest(cs, p, cur)
    ensures cur < 0 ==> m == |Union(cs)|
    ensures cur >= 0 ==> 0 <= m < |Union(cs)| && Union(cs)[m] == cs[cur][p[cur]] && !passed(Union(cs)[m])
    ensures forall j | 0 <= j < m :: passed(Union(cs)[j])
    ensures cur >= 0 ==> forall c | 0 <= c < |cs| :: FirstAfter(cs[c], cs[cur][p[cur]].key, p[c])
  {
    m := |Union(cs)|;
    UnionIsSorted(cs);
    if cur >= 0 {
      m := UnionPosition(cs, cur, p[cur]);
    }
    forall j | 0 <= j < m
      ensures passed(Union(cs)[j])
    {
      var c, i := ChildPosition(cs, j);
      ChildOrder(cs, c, i, p[c]);
      if cur >= 0 { UnionSplit(cs, j, m); }
    }
  }

  /** Choosing the largest child lands on the last entry of the union in the passed part. */
  lemma BackwardLands(cs: seq<seq<Entry>>, p: seq<int>, cur: int, passed: Entry -> bool) returns (m: int)
    requires ChildrenOk(cs) && PositionsIn(cs, p) && LowerPart(passed) && AtLast(cs, p, passed) && Largest(cs, p, cur)
    ensures cur < 0 ==> m == -1
    ensures cur >= 0 ==> 0 <= m < |Union(cs)| && Union(cs)[m] == cs[cur][p[cur]] && passed(Union(cs)[m])
    ensures forall j | m < j < |Union(cs)| :: !passed(Union(cs)[j])
    ensures cur >= 0 ==> forall c | 0 <= c < |cs| :: LastBefore(cs[c], cs[cur][p[cur]].key, p[c])
  {
    m := -1;
    UnionIsSorted(cs);
    if cur >= 0 {
      m := UnionPosition(cs, cur, p[cur]);
    }
    forall j | m < j < |Union(cs)|
      ensures !passed(Union(cs)[j])
    {
      var c, i := ChildPosition(cs, j);
      ChildOrder(cs, c, i, p[c]);
      if cur >= 0 { UnionSplit(cs, m, j); }
    }
  }

  /** The position after p in a child of n entries. */
  function StepAfter(p: int, n: nat): int {
    if p + 1 < n then p + 1 else -1
  }

  datatype Direction = Forward | Reverse

  class Merging {
    const children: seq<seq<Entry>>
    var pos: seq<int>
    var current: int
    var direction: Direction
    /** Where the abstract cursor is: an index into the union, or -1. */
    ghost var cursor: int

    constructor (cs: seq<seq<Entry>>)
      requires ChildrenOk(cs)
      ensures children == cs && Inv() && cursor == -1
    {
      children, pos, current, direction, cursor := cs, seq(|cs|, i => -1), -1, Forward, -1;
    }

    ghost function Merged(): seq<Entry> {
      Union(children)
    }

    ghost predicate PositionsOk()
      reads this
    {
      PositionsIn(children, pos)
    }

    ghost predicate CurrentOk()
      reads this
      requires PositionsOk()
    {
      -1 <= current < |children| && (current >= 0 ==> pos[current] >= 0)
    }

    ghost predicate Inv()
      reads this
    {
      && ChildrenOk(children) && PositionsOk() && CurrentOk()
      && -1 <= cursor < |Merged()| && (current >= 0 <==> cursor >= 0)
      && (current >= 0 ==>
            && Merged()[cursor] == children[current][pos[current]]
            && forall c | 0 <= c < |children| ::
                 if direction.Forward? then FirstAfter(children[c], Key(), pos[c])
                 else LastBefore(children[c], Key(), pos[c]))
    }

    function Key(): IKey
      reads this
      requires PositionsOk() && CurrentOk() && current >= 0
    {
      children[current][pos[current]].key
    }

    // ----- moving one child

    method ChildSeek(c: nat, k: IKey)
      requires PositionsOk() && c < |children| && Sorted(children[c])
      modifies this`pos
      ensures PositionsOk() && pos == old(pos)[c := pos[c]] && FirstAfter(children[c], k, pos[c])
    {
      var child, i := children[c], 0;
      while i < |child| && Less(child[i].key, k)
        invariant 0 <= i <= |child| && forall j | 0 <= j < i :: Less(child[j].key, k)
      {
        i := i + 1;
      }
      pos := pos[c := if i < |child| then i else -1];
    }

    method ChildNext(c: nat)
      requires PositionsOk() && c < |children| && pos[c] >= 0
      modifies this`pos
      ensures PositionsOk() && pos == old(pos)[c := StepAfter(old(pos)[c], |children[c]|)]
    {
      pos := pos[c := StepAfter(pos[c], |children[c]|)];
    }

    method ChildPrev(c: nat)
      requires PositionsOk() && c < |children| && pos[c] >= 0
      modifies this`pos
      ensures PositionsOk() && pos == old(pos)[c := old(pos)[c] - 1]
    {
      pos := pos[c := pos[c] - 1];
    }

    // ----- choosing the current child

    /** MergingIterator::FindSmallest */
    method FindSmallest()
      requires PositionsOk()
      modifies this`current
      ensures CurrentOk() && Smallest(children, pos, current)
    {
      var smallest := -1;
      for i := 0 to |children|
        invariant -1 <= smallest < i && (smallest >= 0 ==> pos[smallest] >= 0)
        invariant smallest < 0 ==> forall c | 0 <= c < i :: pos[c] < 0
        invariant smallest >= 0 ==>
          forall c | 0 <= c < i && pos[c] >= 0 :: !Less(children[c][pos[c]].key, children[smallest][pos[smallest]].key)
      {
        if pos[i] >= 0 {
          if smallest < 0 {
            smallest := i;
          } else if Less(children[i][pos[i]].key, children[smallest][pos[smallest]].key) {
            smallest := i;
          }
        }
      }
      current := smallest;
    }

    /** MergingIterator::FindLargest, which scans from the last child down. */
    method FindLargest()
      requires PositionsOk()
      modifies this`current
      ensures CurrentOk() && Largest(children, pos, current)
    {
      var largest := -1;
      var i := |children| - 1;
      while i >= 0
        invariant -1 <= i < |children|
        invariant largest == -1 || i < largest < |children|
        invariant largest >= 0 ==> pos[largest] >= 0
        invariant largest < 0 ==> forall c | i < c < |children| :: pos[c] < 0
        invariant largest >= 0 ==>
          forall c | i < c < |children| && pos[c] >= 0 ::
            !Less(children[largest][pos[largest]].key, children[c][pos[c]].key)
      {
        if pos[i] >= 0 {
          if largest < 0 {
            largest := i;
          } else if Less(children[largest][pos[largest]].key, children[i][pos[i]].key) {
            largest := i;
          }
        }
        i := i - 1;
      }
      current := largest;
    }

    // ----- the operations

    /** MergingIterator::SeekToFirst */
    method SeekToFirst()
      requires Inv()
      modifies this
      ensures Inv() && cursor == if Merged() == [] then -1 else 0
    {
      for i := 0 to |children|
        invariant PositionsOk() && forall c | 0 <= c < i :: pos[c] == if children[c] == [] then -1 else 0
      {
        pos := pos[i := if children[i] == [] then -1 else 0];
      }
      FindSmallest();
      direction := Forward;
      ghost var m := ForwardLands(children, pos, current, Nothing());
      if Merged() != [] { assert !Nothing()(Merged()[0]); }
      cursor := if current < 0 then -1 else m;
    }

    /** MergingIterator::SeekToLast */
    method SeekToLast()
      requires Inv()
      modifies this
      ensures Inv() && cursor == |Merged()| - 1
    {
      for i := 0 to |children|
        invariant PositionsOk() && forall c | 0 <= c < i :: pos[c] == |children[c]| - 1
      {
        pos := pos[i := |children[i]| - 1];
      }
      FindLargest();
      direction := Reverse;
      ghost var m := BackwardLands(children, pos, current, Everything());
      if Merged() != [] { assert Everything()(Merged()[|Merged()| - 1]); }
      cursor := m;
    }

    /** MergingIterator::Seek: the first entry of the union that is not before the target. */
    method Seek(target: IKey)
      requires Inv()
      modifies this
      ensures Inv()
      ensures cursor >= 0 ==> !Less(Merged()[cursor].key, target)
      ensures forall j | 0 <= j < (if cursor < 0 then |Merged()| else cursor) :: Less(Merged()[j].key, target)
    {
      for i := 0 to |children|
        invariant PositionsOk() && forall c | 0 <= c < i :: FirstAfter(children[c], target, pos[c])
      {
        ChildSeek(i, target);
      }
      FindSmallest();
      direction := Forward;
      SeekSplits(children, pos, target);
      ghost var m := ForwardLands(children, pos, current, Below(target));
      cursor := if current < 0 then -1 else m;
    }

    /** MergingIterator::Next, from either direction. */
    method Next()
      requires Inv() && current >= 0
      modifies this
      ensures Inv() && cursor == if old(cursor) + 1 < |Merged()| then old(cursor) + 1 else -1
    {
      ghost var k, c := Key(), cursor;
      if !direction.Forward? {
        PlaceOthersAfter();
        direction := Forward;
      }
      NextSplits(children, pos, current);
      ChildNext(current);
      FindSmallest();
      ghost var m := ForwardLands(children, pos, current, UpTo(k));
      NextIndex(children, c, m);
      cursor := if current < 0 then -1 else m;
    }

    /** The part of Next that positions the other children after the current key. */
    method PlaceOthersAfter()
      requires ChildrenOk(children) && PositionsOk() && CurrentOk() && current >= 0
      modifies this`pos
      ensures PositionsOk() && CurrentOk() && pos[current] == old(pos[current])
      ensures forall c | 0 <= c < |children| :: FirstAfter(children[c], Key(), pos[c])
    {
      ghost var p := pos[current];
      for i := 0 to |children|
        invariant PositionsOk() && pos[current] == p
        invariant forall c | 0 <= c < i :: FirstAfter(children[c], Key(), pos[c])
      {
        if i != current {
          ChildSeek(i, Key());
          var after := StepAfter(pos[i], |children[i]|);
          var equal := pos[i] >= 0 && !Less(Key(), children[i][pos[i]].key) && !Less(children[i][pos[i]].key, Key());
          if pos[i] >= 0 { KeysApart(children, current, p, i, pos[i]); }
          pos := pos[i := if equal then after else pos[i]];
        } else {
          SelfFirst(children, i, p);
        }
      }
    }

    /** MergingIterator::Prev, from either direction. */
    method Prev()
      requires Inv() && current >= 0
      modifies this
      ensures Inv() && cursor == old(cursor) - 1
    {
      ghost var k, c := Key(), cursor;
      if !direction.Reverse? {
        PlaceOthersBefore();
        direction := Reverse;
      }
      PrevSplits(children, pos, current);
      ChildPrev(current);
      FindLargest();
      ghost var m := BackwardLands(children, pos, current, Below(k));
      PrevIndex(children, c, m);
      cursor := m;
    }

    /** The part of Prev that positions the other children before the current key. */
    method PlaceOthersBefore()
      requires ChildrenOk(children) && PositionsOk() && CurrentOk() && current >= 0
      modifies this`pos
      ensures PositionsOk() && CurrentOk() && pos[current] == old(pos[current])
      ensures forall c | 0 <= c < |children| :: LastBefore(children[c], Key(), pos[c])
    {
      ghost var p := pos[current];
      for i := 0 to |children|
        invariant PositionsOk() && pos[current] == p
        invariant forall c | 0 <= c < i :: LastBefore(children[c], Key(), pos[c])
      {
        if i != current {
          ChildSeek(i, Key());
          FirstThenLast(children, current, p, i, pos[i]);
          if pos[i] >= 0 {
            ChildPrev(i);
          } else {
            pos := pos[i := |children[i]| - 1];
          }
        } else {
          SelfFirst(children, i, p);
        }
      }
    }
  }

  lemma SeekSplits(cs: seq<seq<Entry>>, p: seq<int>, k: IKey)
    requires ChildrenOk(cs) && PositionsIn(cs, p) && forall c | 0 <= c < |cs| :: FirstAfter(cs[c], k, p[c])
    ensures LowerPart(Below(k)) && AtFirst(cs, p, Below(k))
  {
    forall c, i | 0 <= c < |cs| && 0 <= i < |cs[c]|
      ensures Below(k)(cs[c][i]) <==> p[c] < 0 || i < p[c]
    {
      ChildOrder(cs, c, i, p[c]);
    }
  }

  /** Where the current child itself stands relative to its own key. */
  lemma SelfFirst(cs: seq<seq<Entry>>, c: nat, p: nat)
    requires ChildrenOk(cs) && c < |cs| && p < |cs[c]|
    ensures FirstAfter(cs[c], cs[c][p].key, p) && LastBefore(cs[c], cs[c][p].key, p)
  {
    assert Sorted(cs[c]);
  }

  /** No other child holds the current key, so stepping back from the first entry after it passes it. */
  lemma FirstThenLast(cs: seq<seq<Entry>>, cur: nat, p: nat, i: nat, q: int)
    requires ChildrenOk(cs) && cur < |cs| && p < |cs[cur]| && i < |cs| && i != cur
    requires FirstAfter(cs[i], cs[cur][p].key, q)
    ensures LastBefore(cs[i], cs[cur][p].key, if q >= 0 then q - 1 else |cs[i]| - 1)
  {
    forall j | 0 <= j < |cs[i]|
      ensures Less(cs[i][j].key, cs[cur][p].key) || Less(cs[cur][p].key, cs[i][j].key)
    {
      assert if i < cur then !SameKey(cs[i][j], cs[cur][p]) else !SameKey(cs[cur][p], cs[i][j]);
    }
    forall j | 0 <= j < |cs[i]|
      ensures 0 <= q <= j ==> Less(cs[cur][p].key, cs[i][j].key)
    {
      ChildOrder(cs, i, j, q);
    }
  }

  lemma NextIndex(cs: seq<seq<Entry>>, c: nat, m: int)
    requires ChildrenOk(cs) && c < |Union(cs)| && 0 <= m <= |Union(cs)|
    requires m < |Union(cs)| ==> !UpTo(Union(cs)[c].key)(Union(cs)[m])
    requires forall j | 0 <= j < m :: UpTo(Union(cs)[c].key)(Union(cs)[j])
    ensures m == c + 1
  {
    if m < |Union(cs)| { UnionSplit(cs, c, m); }
    if c + 1 < |Union(cs)| { UnionSplit(cs, c, c + 1); }
  }

  lemma PrevIndex(cs: seq<seq<Entry>>, c: nat, m: int)
    requires ChildrenOk(cs) && c < |Union(cs)| && -1 <= m < |Union(cs)|
    requires m >= 0 ==> Below(Union(cs)[c].key)(Union(cs)[m])
    requires forall j | m < j < |Union(cs)| :: !Below(Union(cs)[c].key)(Union(cs)[j])
    ensures m == c - 1
  {
    if m >= 0 { UnionSplit(cs, m, c); }
    if c > 0 { UnionSplit(cs, c - 1, c); }
  }

  lemma KeysApart(cs: seq<seq<Entry>>, cur: nat, p: nat, c: nat, i: nat)
    requires ChildrenOk(cs) && cur < |cs| && p < |cs[cur]| && c < |cs| && i < |cs[c]| && (c != cur || i != p)
    ensures Less(cs[c][i].key, cs[cur][p].key) || Less(cs[cur][p].key, cs[c][i].key)
  {
    if c == cur {
      ChildOrder(cs, c, i, p);
    } else {
      assert if c < cur then !SameKey(cs[c][i], cs[cur][p]) else !SameKey(cs[cur][p], cs[c][i]);
    }
  }

  /** Stepping the current child leaves every child at its first entry after the old key. */
  lemma NextSplits(cs: seq<seq<Entry>>, p: seq<int>, cur: nat)
    requires ChildrenOk(cs) && PositionsIn(cs, p) && cur < |cs| && p[cur] >= 0
    requires forall c | 0 <= c < |cs| :: FirstAfter(cs[c], cs[cur][p[cur]].key, p[c])
    ensures var p' := p[cur := StepAfter(p[cur], |cs[cur]|)];
            PositionsIn(cs, p') && LowerPart(UpTo(cs[cur][p[cur]].key)) && AtFirst(cs, p', UpTo(cs[cur][p[cur]].key))
  {
    var k := cs[cur][p[cur]].key;
    var p' := p[cur := StepAfter(p[cur], |cs[cur]|)];
    forall c, i | 0 <= c < |cs| && 0 <= i < |cs[c]|
      ensures UpTo(k)(cs[c][i]) <==> p'[c] < 0 || i < p'[c]
    {
      assert FirstAfter(cs[c], k, p[c]);
      ChildOrder(cs, c, i, p[c]);
      if c != cur || i != p[cur] { KeysApart(cs, cur, p[cur], c, i); }
    }
  }

  /** Stepping the current child back leaves every child at its last entry before the old key. */
  lemma PrevSplits(cs: seq<seq<Entry>>, p: seq<int>, cur: nat)
    requires ChildrenOk(cs) && PositionsIn(cs, p) && cur < |cs| && p[cur] >= 0
    requires forall c | 0 <= c < |cs| :: LastBefore(cs[c], cs[cur][p[cur]].key, p[c])
    ensures var p' := p[cur := p[cur] - 1];
            PositionsIn(cs, p') && LowerPart(Below(cs[cur][p[cur]].key)) && AtLast(cs, p', Below(cs[cur][p[cur]].key))
  {
    var k := cs[cur][p[cur]].key;
    var p' := p[cur := p[cur] - 1];
    forall c, i | 0 <= c < |cs| && 0 <= i < |cs[c]|
      ensures Below(k)(cs[c][i]) <==> i <= p'[c]
    {
      assert LastBefore(cs[c], k, p[c]);
      ChildOrder(cs, c, i, p[c]);
      if c != cur || i != p[cur] { KeysApart(cs, cur, p[cur], c, i); }
    }
  }
}
