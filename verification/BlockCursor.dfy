/** Block::Iter as a cursor over the entries of a block. */
module BlockCursor {
  import opened Bytes
  import opened Coding
  import opened Blocks
  import opened BlockIterator

  class Iter {
    const contents: Str
    const restartOffset: nat
    const numRestarts: nat
    var current: nat
    var restartIndex: nat
    var key: Str
    var valueStart: nat
    var valueLength: nat
    var corrupt: bool
    ghost const sh: Shape
    ghost var cursor: nat

    /** What the code relies on for any contents. */
    ghost predicate Sane()
      reads this
    {
      && numRestarts >= 1
      && restartOffset + 4 * numRestarts + 4 <= |contents|
      && (current < restartOffset ==> restartIndex < numRestarts)
    }

    ghost predicate InBounds()
      reads this
    {
      current <= restartOffset && (current < restartOffset ==> current < valueStart + valueLength <= restartOffset)
    }

    ghost predicate WellFormed()
      reads this
    {
      IterBlock(contents, restartOffset, numRestarts, sh)
    }

    /** Standing on entry i: the restart index is that of the block of entries i falls in. */
    ghost predicate At(i: nat)
      requires WellFormed()
      reads this
    {
      && i < |sh.entries|
      && current == sh.starts[i]
      && key == sh.entries[i].0
      && valueStart + valueLength == sh.starts[i + 1] <= |contents|
      && contents[valueStart..sh.starts[i + 1]] == sh.entries[i].1
      && restartIndex < numRestarts && sh.owners[restartIndex] <= i
      && (restartIndex + 1 < numRestarts ==> i <= sh.owners[restartIndex + 1])
    }

    ghost predicate AtEnd()
      reads this
    {
      current == restartOffset && restartIndex == numRestarts
    }

    /** About to parse entry i. */
    ghost predicate Before(i: nat)
      requires WellFormed()
      reads this
    {
      && i <= |sh.entries|
      && valueStart + valueLength == sh.starts[i]
      && (i < |sh.entries| ==>
            && sh.shared[i] <= |key| && sh.shared[i] <= |sh.entries[i].0|
            && key[..sh.shared[i]] == sh.entries[i].0[..sh.shared[i]])
      && restartIndex < numRestarts && sh.owners[restartIndex] <= i
    }

    /** The iterator is where its cursor is. */
    ghost predicate Valid()
      reads this
    {
      && Sane() && InBounds()
      && (WellFormed() && !corrupt ==>
            if cursor < |sh.entries| then At(cursor) else cursor == |sh.entries| && AtEnd())
    }

    method GetRestartPoint(index: nat) returns (offset: nat)
      requires Sane() && index < numRestarts
      ensures WellFormed() ==> offset == sh.Restart(index)
    {
      var at := restartOffset + 4 * index;
      offset := DecodeFixed(contents[at..at + 4]);
      if WellFormed() {
        RestartPoint(contents, restartOffset, numRestarts, sh, index, at);
      }
    }

    method SeekToRestartPoint(index: nat)
      requires Sane() && index < numRestarts
      modifies this`key, this`restartIndex, this`valueStart, this`valueLength
      ensures Sane() && restartIndex == index
      ensures WellFormed() ==> Before(sh.owners[index])
    {
      key := [];
      restartIndex := index;
      valueStart := GetRestartPoint(index);
      valueLength := 0;
      assert WellFormed() ==> sh.OwnerOk(index);
    }

    method CorruptionError()
      requires Sane()
      modifies this`current, this`restartIndex, this`key, this`valueStart, this`valueLength, this`corrupt
      ensures Sane() && corrupt && current == restartOffset
    {
      current := restartOffset;
      restartIndex := numRestarts;
      corrupt := true;
      key := [];
      valueStart, valueLength := 0, 0;
    }

    /** The restart index moves on past restart points before the entry just parsed. */
    method AdvanceRestartIndex(ghost i: nat)
      requires Sane() && restartIndex < numRestarts
      modifies this`restartIndex
      ensures restartIndex < numRestarts
      ensures WellFormed() && i < |sh.entries| && current == sh.starts[i] && sh.owners[old(restartIndex)] <= i ==>
                sh.owners[restartIndex] <= i && (restartIndex + 1 < numRestarts ==> i <= sh.owners[restartIndex + 1])
    {
      ghost var here := WellFormed() && i < |sh.entries| && current == sh.starts[i] && sh.owners[restartIndex] <= i;
      while restartIndex + 1 < numRestarts
        invariant restartIndex < numRestarts
        invariant here ==> sh.owners[restartIndex] <= i
      {
        var next := GetRestartPoint(restartIndex + 1);
        if here {
          assert sh.OwnerOk(restartIndex + 1);
          StartsOrder(contents, restartOffset, sh, sh.owners[restartIndex + 1], i);
        }
        if next >= current {
          break;
        }
        restartIndex := restartIndex + 1;
      }
    }

    /** The lengths of the entry behind the current value. */
    method NextHead(p: nat, ghost i: nat) returns (h: Option<Head>)
      requires Sane() && p < restartOffset
      ensures h.Some? ==>
                h.value.size >= 3 && p + h.value.size + h.value.nonShared + h.value.valueLength <= restartOffset
      ensures WellFormed() && i < |sh.entries| && p == sh.starts[i] ==>
                h.Some? && Decoded(contents, h.value, p, sh.starts[i + 1], sh.shared[i], sh.entries[i].0,
                                   sh.entries[i].1)
    {
      h := DecodeEntry(contents[p..restartOffset]);
      if WellFormed() && i < |sh.entries| && p == sh.starts[i] {
        EntryAtStart(contents, restartOffset, numRestarts, sh, i, p);
      }
    }

    /** ParseNextKey */
    method ParseNextKey(ghost i: nat) returns (ok: bool)
      requires Sane() && restartIndex < numRestarts
      modifies this`current, this`restartIndex, this`key, this`valueStart, this`valueLength, this`corrupt
      ensures Sane()
      ensures old(WellFormed() && Before(i)) ==>
                corrupt == old(corrupt) && if i < |sh.entries| then ok && At(i) else !ok && AtEnd()
      ensures ok ==> current == old(valueStart + valueLength) < valueStart + valueLength <= restartOffset
      ensures ok ==> restartIndex < numRestarts
      ensures !ok ==> current == restartOffset
      ensures InBounds() && (old(corrupt) ==> corrupt)
    {
      ghost var good := WellFormed() && Before(i);
      current := valueStart + valueLength;
      if good {
        StartsOrder(contents, restartOffset, sh, i, |sh.entries|);
      }
      if current >= restartOffset {
        current := restartOffset;
        restartIndex := numRestarts;
        return false;
      }
      var h := NextHead(current, i);
      if h.None? || |key| < h.value.shared {
        CorruptionError();
        return false;
      }
      var q := current + h.value.size;
      if good {
        KeyRebuilt(key, h.value.shared, contents[q..q + h.value.nonShared], sh.entries[i].0);
      }
      key := key[..h.value.shared] + contents[q..q + h.value.nonShared];
      valueStart, valueLength := q + h.value.nonShared, h.value.valueLength;
      AdvanceRestartIndex(i);
      return true;
    }

    // ----- the iterator's operations

    constructor (contents: Str, restartOffset: nat, numRestarts: nat, ghost sh: Shape)
      requires numRestarts >= 1 && restartOffset + 4 * numRestarts + 4 <= |contents|
      ensures Valid() && !corrupt && this.contents == contents && this.sh == sh && cursor == |sh.entries|
      ensures this.restartOffset == restartOffset && this.numRestarts == numRestarts
    {
      this.contents, this.restartOffset, this.numRestarts, this.sh := contents, restartOffset, numRestarts, sh;
      current, restartIndex, key := restartOffset, numRestarts, [];
      valueStart, valueLength, corrupt := 0, 0, false;
      cursor := |sh.entries|;
    }

    /** On a well-formed block that has not been found corrupt. */
    ghost predicate Good()
      reads this
    {
      WellFormed() && !corrupt
    }

    method SeekToFirst()
      requires Valid()
      modifies this
      ensures Valid() && (old(Good()) ==> !corrupt && cursor == 0)
    {
      SeekToRestartPoint(0);
      var ok := ParseNextKey(0);
      cursor := 0;
    }

    method Next()
      requires Valid() && current < restartOffset
      modifies this
      ensures Valid() && (old(Good()) ==> !corrupt && old(cursor) < |sh.entries| && cursor == old(cursor) + 1)
      ensures current > old(current)
    {
      if Good() {
        AtIsBefore(cursor);
      }
      var ok := ParseNextKey(cursor + 1);
      cursor := cursor + 1;
    }

    lemma AtIsBefore(i: nat)
      requires Sane() && WellFormed() && At(i)
      ensures Before(i + 1)
    {
      if i + 1 < |sh.entries| {
        assert sh.PrefixOk(i + 1);
      }
    }

    /** Parse entries from i on until the one that ends at `stop` or later. */
    method ScanTo(stop: nat, ghost i: nat, ghost last: int)
      requires Sane() && restartIndex < numRestarts
      modifies this`current, this`restartIndex, this`key, this`valueStart, this`valueLength, this`corrupt
      ensures Sane()
      ensures old(WellFormed() && Before(i)) && i <= last < |sh.entries| && stop == sh.starts[last + 1] ==>
                corrupt == old(corrupt) && At(last)
      ensures old(WellFormed() && Before(i)) && i == |sh.entries| ==> corrupt == old(corrupt) && AtEnd()
      ensures InBounds() && (old(corrupt) ==> corrupt)
    {
      ghost var good := WellFormed() && Before(i) && i <= last < |sh.entries| && stop == sh.starts[last + 1];
      ghost var none := WellFormed() && Before(i) && i == |sh.entries|;
      ghost var k: nat, was := i, corrupt;
      var ok := ParseNextKey(k);
      while ok && valueStart + valueLength < stop
        invariant Sane() && InBounds() && (was ==> corrupt)
        invariant ok ==> restartIndex < numRestarts && valueStart + valueLength <= restartOffset
        invariant !ok && none ==> corrupt == was && AtEnd()
        invariant none ==> !ok
        invariant good ==> corrupt == was && ok && i <= k <= last && At(k)
        decreases ok, if ok then restartOffset - (valueStart + valueLength) else 0
      {
        if good {
          StartsOrder(contents, restartOffset, sh, k + 1, last + 1);
          AtIsBefore(k);
        }
        k := k + 1;
        ok := ParseNextKey(k);
      }
      if good {
        StartsOrder(contents, restartOffset, sh, k + 1, last + 1);
      }
    }

    method SeekToLast()
      requires Valid()
      modifies this
      ensures Valid() && (old(Good()) ==> !corrupt && cursor == if sh.entries == [] then 0 else |sh.entries| - 1)
    {
      SeekToRestartPoint(numRestarts - 1);
      ghost var i := if WellFormed() then sh.owners[numRestarts - 1] else 0;
      assert WellFormed() ==> sh.OwnerOk(numRestarts - 1);
      ScanTo(restartOffset, i, |sh.entries| - 1);
      cursor := if sh.entries == [] then 0 else |sh.entries| - 1;
    }

    /** The last restart point before the current entry, if there is one. */
    method RestartBefore() returns (found: bool)
      requires Valid() && current < restartOffset
      modifies this`restartIndex
      ensures Sane() && InBounds()
      ensures Good() ==> cursor < |sh.entries| && (found <==> cursor > 0)
      ensures found ==> restartIndex < numRestarts && (Good() ==> sh.owners[restartIndex] < cursor)
    {
      ghost var good := Good();
      while true
        invariant restartIndex < numRestarts
        invariant good ==> cursor < |sh.entries| && current == sh.starts[cursor]
        decreases restartIndex
      {
        var r := GetRestartPoint(restartIndex);
        if good {
          assert sh.OwnerOk(restartIndex);
          StartsOrder(contents, restartOffset, sh, sh.owners[restartIndex], cursor);
        }
        if r < current {
          return true;
        }
        if restartIndex == 0 {
          return false;
        }
        restartIndex := restartIndex - 1;
      }
    }

    method Prev()
      requires Valid() && current < restartOffset
      modifies this
      ensures Valid()
      ensures old(Good()) ==> !corrupt && cursor == if old(cursor) == 0 then |sh.entries| else old(cursor) - 1
    {
      var original := current;
      ghost var i := 0;
      var found := RestartBefore();
      if !found {
        current := restartOffset;
        restartIndex := numRestarts;
        cursor := |sh.entries|;
        return;
      }
      SeekToRestartPoint(restartIndex);
      i := if WellFormed() then sh.owners[restartIndex] else 0;
      ScanTo(original, i, cursor - 1);
      cursor := if cursor == 0 then 0 else cursor - 1;
    }

    /** The key at a restart point: it shares nothing. */
    method RestartKey(index: nat) returns (r: Option<Str>)
      requires Sane() && index < numRestarts
      ensures WellFormed() && sh.owners[index] < |sh.entries| ==> r == Some(sh.entries[sh.owners[index]].0)
    {
      var p := GetRestartPoint(index);
      ghost var i := if WellFormed() then sh.owners[index] else 0;
      if WellFormed() && i < |sh.entries| {
        assert sh.OwnerOk(index);
        StartsOrder(contents, restartOffset, sh, i, |sh.entries|);
      }
      if p >= restartOffset {
        return None;
      }
      var h := NextHead(p, i);
      if h.None? || h.value.shared != 0 {
        return None;
      }
      var q := p + h.value.size;
      return Some(contents[q..q + h.value.nonShared]);
    }

    /** The binary search of Seek: the last restart point known to be before the target. */
    method SearchRestarts(ord: Str -> real, target: Str, from: nat, to: nat) returns (r: Option<nat>)
      requires Sane() && from <= to < numRestarts
      ensures r.Some? ==> from <= r.value <= to
      ensures WellFormed() && (from < to ==> sh.entries != []) ==>
                r.Some? && (r.value == from || (sh.owners[r.value] < |sh.entries| &&
                                                ord(sh.entries[sh.owners[r.value]].0) < ord(target)))
    {
      var left, right := from, to;
      while left < right
        invariant from <= left <= right <= to
        invariant WellFormed() && (from < to ==> sh.entries != []) ==>
                    left == from || (sh.owners[left] < |sh.entries| && ord(sh.entries[sh.owners[left]].0) < ord(target))
      {
        var mid := (left + right + 1) / 2;
        assert WellFormed() ==> sh.OwnerOk(mid);
        var midKey := RestartKey(mid);
        if midKey.None? {
          return None;
        }
        if ord(midKey.value) < ord(target) {
          left := mid;
        } else {
          right := mid - 1;
        }
      }
      return Some(left);
    }

    /** The linear search of Seek, from entry i on. */
    method ScanForTarget(ord: Str -> real, target: Str, ghost i: nat)
      requires Sane() && restartIndex < numRestarts
      modifies this
      ensures Sane() && InBounds() && (old(corrupt) ==> corrupt)
      ensures old(WellFormed() && Before(i)) ==> corrupt == old(corrupt) && ScannedTo(sh, ord, target, i, cursor)
      ensures old(WellFormed() && Before(i)) ==>
                if cursor < |sh.entries| then At(cursor) else cursor == |sh.entries| && AtEnd()
    {
      ghost var good, was := WellFormed() && Before(i), corrupt;
      cursor := i;
      var more := true;
      while more
        invariant Sane() && (more ==> restartIndex < numRestarts) && (!more ==> InBounds()) && (was ==> corrupt)
        invariant good ==> corrupt == was && PassedOver(sh, ord, target, i, cursor)
        invariant good ==> if more then Before(cursor) else StopsAt(ord, target, cursor)
        decreases more, restartOffset - (valueStart + valueLength)
      {
        ghost var c := cursor;
        more := ScanTurn(ord, target);
        if good && more {
          PassOver(sh, ord, target, i, c);
        }
      }
    }

    ghost predicate StopsAt(ord: Str -> real, target: Str, c: nat)
      requires WellFormed()
      reads this
    {
      if c < |sh.entries| then At(c) && ord(target) <= ord(sh.entries[c].0) else c == |sh.entries| && AtEnd()
    }

    /** One turn of the linear search. */
    method ScanTurn(ord: Str -> real, target: Str) returns (more: bool)
      requires Sane() && restartIndex < numRestarts
      modifies this
      ensures Sane() && (old(corrupt) ==> corrupt) && (!more ==> InBounds())
      ensures more ==>
                restartIndex < numRestarts && old(valueStart + valueLength) < valueStart + valueLength <= restartOffset
      ensures old(WellFormed() && Before(cursor)) ==> corrupt == old(corrupt)
      ensures old(WellFormed() && Before(cursor)) && !more ==> cursor == old(cursor) && StopsAt(ord, target, cursor)
      ensures old(WellFormed() && Before(cursor)) && more ==>
                cursor == old(cursor) + 1 <= |sh.entries| && Before(cursor) &&
                    ord(sh.entries[cursor - 1].0) < ord(target)
    {
      ghost var good := WellFormed() && Before(cursor);
      var ok := ParseNextKey(cursor);
      if !ok || ord(key) >= ord(target) {
        return false;
      }
      if good {
        AtIsBefore(cursor);
      }
      cursor := cursor + 1;
      return true;
    }

    /** The current position as a hint: search from here on, up to here, or not at all. */
    method Hint(ord: Str -> real, target: Str) returns (left: nat, right: nat, ahead: bool, here: bool)
      requires Valid()
      ensures left <= right < numRestarts && (ahead ==> left == restartIndex && current < restartOffset)
      ensures !ahead ==> left == 0
      ensures Good() && sh.KeysIncrease(ord) ==>
                && (here ==> Lands(sh, ord, target, cursor))
                && (ahead ==> At(cursor) && AllBefore(sh, ord, target, cursor + 1))
                && (ahead ==> AllBefore(sh, ord, target, sh.owners[left]))
    {
      left, right, ahead, here := 0, numRestarts - 1, false, false;
      if current < restartOffset {
        ghost var good := Good() && sh.KeysIncrease(ord);
        if good {
          KeyBefore(sh, ord, target, cursor);
        }
        if ord(key) < ord(target) {
          left, ahead := restartIndex, true;
        } else if ord(key) > ord(target) {
          right := restartIndex;
        } else {
          here := true;
        }
      }
    }

    lemma RestartAllBefore(ord: Str -> real, target: Str, index: nat)
      requires WellFormed() && sh.KeysIncrease(ord) && index < numRestarts
      requires sh.owners[index] < |sh.entries| && ord(sh.entries[sh.owners[index]].0) < ord(target)
      ensures AllBefore(sh, ord, target, sh.owners[index])
    {
      KeyBefore(sh, ord, target, sh.owners[index]);
    }

    /** The restart point to scan from. */
    method StartOfScan(ord: Str -> real, target: Str, left: nat, right: nat) returns (r: Option<nat>)
      requires Sane() && left <= right < numRestarts
      ensures r.Some? ==> left <= r.value <= right
      ensures WellFormed() ==> r.Some? && sh.owners[r.value] <= |sh.entries|
      ensures WellFormed() && sh.KeysIncrease(ord) && AllBeforeOwner(ord, target, left) ==>
                AllBeforeOwner(ord, target, r.value)
    {
      if WellFormed() {
        assert sh.OwnerOk(left) && sh.OwnerOk(right);
      }
      r := SearchRestarts(ord, target, left, right);
      if WellFormed() {
        assert sh.OwnerOk(r.value);
        if sh.KeysIncrease(ord) && r.value != left {
          RestartAllBefore(ord, target, r.value);
        }
      }
    }

    ghost predicate AllBeforeOwner(ord: Str -> real, target: Str, index: nat)
      requires WellFormed() && index < numRestarts
      reads this
    {
      sh.owners[index] <= |sh.entries| && AllBefore(sh, ord, target, sh.owners[index])
    }

    /** Where the scan starts: behind the current entry if that helps, at a restart point otherwise. */
    method Position(ord: Str -> real, target: Str, ahead: bool, found: nat) returns (ghost i: nat)
      requires Sane() && found < numRestarts && (ahead ==> restartIndex < numRestarts)
      modifies this`key, this`restartIndex, this`valueStart, this`valueLength
      ensures Sane() && restartIndex < numRestarts
      ensures old(WellFormed() && (ahead ==> At(cursor))) ==> Before(i)
      ensures old(WellFormed() && (ahead ==> At(cursor) && AllBefore(sh, ord, target, cursor + 1))) &&
              AllBeforeOwner(ord, target, found)
              ==> AllBefore(sh, ord, target, i)
    {
      i := cursor + 1;
      if WellFormed() && ahead && At(cursor) {
        AtIsBefore(cursor);
      }
      if !(ahead && found == restartIndex) {
        SeekToRestartPoint(found);
        i := if WellFormed() then sh.owners[found] else 0;
      }
    }

    /** Seek: from any position, the first key at or after the target. */
    method Seek(ord: Str -> real, target: Str)
      requires Valid()
      modifies this
      ensures Valid()
      ensures old(Good()) && sh.KeysIncrease(ord) ==> !corrupt && Lands(sh, ord, target, cursor)
    {
      var left, right, ahead, here := Hint(ord, target);
      if here {
        return;
      }
      var found := StartOfScan(ord, target, left, right);
      if found.None? {
        CorruptionError();
        return;
      }
      var i := Position(ord, target, ahead, found.value);
      ScanForTarget(ord, target, i);
      if Good() && sh.KeysIncrease(ord) {
        ScanLands(sh, ord, target, i, cursor);
      }
    }
  }

  ghost predicate BeforeTarget(sh: Shape, ord: Str -> real, target: Str, j: nat)
    requires j < |sh.entries|
  {
    ord(sh.entries[j].0) < ord(target)
  }

  /** All of the first i keys are before the target. */
  ghost predicate AllBefore(sh: Shape, ord: Str -> real, target: Str, i: nat)
    requires i <= |sh.entries|
  {
    forall j | 0 <= j < i :: BeforeTarget(sh, ord, target, j)
  }

  /** c is the place of the first key >= target. */
  ghost predicate Lands(sh: Shape, ord: Str -> real, target: Str, c: nat) {
    && c <= |sh.entries|
    && AllBefore(sh, ord, target, c)
    && (c < |sh.entries| ==> ord(target) <= ord(sh.entries[c].0))
  }

  /** The scan went over the entries from i to c, all before the target. */
  ghost predicate PassedOver(sh: Shape, ord: Str -> real, target: Str, i: nat, c: nat) {
    i <= c <= |sh.entries| && forall j | i <= j < c :: BeforeTarget(sh, ord, target, j)
  }

  lemma PassOver(sh: Shape, ord: Str -> real, target: Str, i: nat, c: nat)
    requires PassedOver(sh, ord, target, i, c) && c < |sh.entries| && ord(sh.entries[c].0) < ord(target)
    ensures PassedOver(sh, ord, target, i, c + 1)
  {
    assert BeforeTarget(sh, ord, target, c);
  }

  ghost predicate ScannedTo(sh: Shape, ord: Str -> real, target: Str, i: nat, c: nat) {
    PassedOver(sh, ord, target, i, c) && (c < |sh.entries| ==> ord(target) <= ord(sh.entries[c].0))
  }

  lemma ScanLands(sh: Shape, ord: Str -> real, target: Str, i: nat, c: nat)
    requires ScannedTo(sh, ord, target, i, c) && AllBefore(sh, ord, target, i)
    ensures Lands(sh, ord, target, c)
  {
  }

  lemma KeyBefore(sh: Shape, ord: Str -> real, target: Str, i: nat)
    requires sh.KeysIncrease(ord) && i < |sh.entries|
    ensures ord(sh.entries[i].0) < ord(target) ==> AllBefore(sh, ord, target, i + 1)
    ensures ord(sh.entries[i].0) <= ord(target) ==> AllBefore(sh, ord, target, i)
  {
    forall j | 0 <= j <= i
      ensures ord(sh.entries[j].0) <= ord(sh.entries[i].0) && (j < i ==> ord(sh.entries[j].0) < ord(sh.entries[i].0))
    {
      KeysGrow(sh, ord, j, i);
    }
  }

  lemma KeyRebuilt(last: Str, n: nat, delta: Str, key: Str)
    requires n <= |last| && n <= |key| && last[..n] == key[..n] && delta == key[n..]
    ensures last[..n] + delta == key
  {
  }

  lemma StartsOrder(contents: Str, restartOffset: nat, sh: Shape, i: nat, j: nat)
    requires IsBlock(contents, sh) && restartOffset == sh.starts[|sh.entries|] && i <= |sh.entries| && j <= |sh.entries|
    ensures sh.starts[i] < sh.starts[j] <==> i < j
  {
    if i < j {
      StartsGrow(sh, contents[..restartOffset], i, j);
    } else if j < i {
      StartsGrow(sh, contents[..restartOffset], j, i);
    }
  }

  // ----- building, opening, iterating

  method Build(interval: nat, pairs: seq<Pair>) returns (contents: Str, ghost sh: Shape)
    requires interval >= 1
    ensures IsBlock(contents, sh) && sh.entries == pairs
  {
    var b := new BlockBuilder(interval);
    for k := 0 to |pairs|
      invariant fresh(b) && b.Valid() && b.shape.entries == pairs[..k]
    {
      b.Add(pairs[k].0, pairs[k].1);
    }
    sh := b.shape;
    contents := b.Finish();
  }

  ghost predicate Fits(sh: Shape)
    requires sh.Sizes()
  {
    && sh.starts[|sh.entries|] < MAX_LEN && |sh.owners| < MAX_LEN
    && forall e | e in sh.entries :: |e.0| < MAX_LEN && |e.1| < MAX_LEN
  }

  /** The Block constructor: where the restart array starts and how long it is; nothing if it cannot be there. */
  method Open(contents: Str, ghost sh: Shape) returns (r: Option<(nat, nat)>)
    ensures r.Some? ==> r.value.0 + 4 * r.value.1 + 4 == |contents|
    ensures IsBlock(contents, sh) && Fits(sh) ==>
              r.Some? && r.value.1 >= 1 && IterBlock(contents, r.value.0, r.value.1, sh)
  {
    if |contents| < 4 {
      return None;
    }
    var num := DecodeFixed(contents[|contents| - 4..]);
    if IsBlock(contents, sh) && Fits(sh) {
      FourBytes();
      FixedRoundTrip(|sh.owners|, 4);
      assert contents[|contents| - 4..] == Fixed(|sh.owners|, 4);
    }
    if num > (|contents| - 4) / 4 {
      return None;
    }
    return Some((|contents| - (1 + num) * 4, num));
  }

  /** Iterating a finished block from the first entry on gives its entries back. */
  method Entries(contents: Str, ghost sh: Shape) returns (pairs: seq<Pair>)
    ensures IsBlock(contents, sh) && Fits(sh) ==> pairs == sh.entries
  {
    pairs := [];
    var r := Open(contents, sh);
    if r.None? || r.value.1 == 0 {
      return;
    }
    var it := new Iter(contents, r.value.0, r.value.1, sh);
    it.SeekToFirst();
    ghost var good := it.Good();
    while it.current < it.restartOffset
      invariant fresh(it) && it.Valid() && it.contents == contents && it.sh == sh
      invariant good ==> it.Good() && it.cursor <= |sh.entries| && pairs == sh.entries[..it.cursor]
      decreases it.restartOffset - it.current
    {
      pairs := pairs + [(it.key, contents[it.valueStart..it.valueStart + it.valueLength])];
      it.Next();
    }
    if good {
      StartsOrder(contents, it.restartOffset, sh, it.cursor, |sh.entries|);
      assert sh.entries[..|sh.entries|] == sh.entries;
    }
  }

  /** A seek in a block that has just been opened: the first entry at or after the target. */
  method Find(ord: Str -> real, contents: Str, target: Str, ghost sh: Shape) returns (r: Option<Pair>, ghost c: nat)
    ensures IsBlock(contents, sh) && Fits(sh) && sh.KeysIncrease(ord) ==>
              Lands(sh, ord, target, c) && r == if c < |sh.entries| then Some(sh.entries[c]) else None
  {
    var block := Open(contents, sh);
    if block.None? || block.value.1 == 0 {
      return None, 0;
    }
    var it := new Iter(contents, block.value.0, block.value.1, sh);
    it.Seek(ord, target);
    c := it.cursor;
    if it.Good() && c < |sh.entries| {
      StartsOrder(contents, it.restartOffset, sh, c, |sh.entries|);
    }
    if it.current >= it.restartOffset {
      return None, c;
    }
    return Some((it.key, contents[it.valueStart..it.valueStart + it.valueLength])), c;
  }
}
