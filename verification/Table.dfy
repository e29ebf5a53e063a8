/** Sorted tables: data blocks, an index of separators, a filter block, and the point lookup. */
module Table {
  import opened Bytes
  import opened Separators
  import opened FilterBlock

  type Entry = (TKey, Str)

  ghost predicate SortedBlock(b: seq<Entry>) {
    forall i | 0 <= i < |b| - 1 :: InOrder(b, i)
  }

  ghost predicate InOrder(b: seq<Entry>, i: nat)
    requires i + 1 < |b|
  {
    KeyLess(b[i].0, b[i + 1].0)
  }

  /** The data blocks of a table, in file order. */
  ghost predicate BlocksOk(blocks: seq<seq<Entry>>) {
    forall i | 0 <= i < |blocks| :: BlockOk(blocks, i)
  }

  /** Each block is sorted and not empty, and lies before the next. */
  ghost predicate BlockOk(blocks: seq<seq<Entry>>, i: nat)
    requires i < |blocks|
  {
    && blocks[i] != [] && SortedBlock(blocks[i])
    && (i + 1 < |blocks| && blocks[i + 1] != [] ==> KeyLess(Last(blocks[i]), blocks[i + 1][0].0))
  }

  function Last(b: seq<Entry>): TKey
    requires b != []
  {
    b[|b| - 1].0
  }

  lemma {:induction false} WithinBlock(b: seq<Entry>, i: nat, j: nat)
    requires SortedBlock(b) && i <= j < |b|
    ensures i == j || KeyLess(b[i].0, b[j].0)
    decreases j
  {
    if i < j {
      assert InOrder(b, j - 1);
      WithinBlock(b, i, j - 1);
      KeyLessOrder(b[i].0, b[j - 1].0, b[j].0);
    }
  }

  /** Every key of an earlier block is before every key of a later one. */
  lemma {:induction false} AcrossBlocks(blocks: seq<seq<Entry>>, i: nat, p: nat, j: nat, q: nat)
    requires BlocksOk(blocks) && i < j < |blocks| && p < |blocks[i]| && q < |blocks[j]|
    ensures KeyLess(blocks[i][p].0, blocks[j][q].0)
    decreases j
  {
    assert BlockOk(blocks, i) && BlockOk(blocks, j) && BlockOk(blocks, j - 1);
    var k, last, first := blocks[i][p].0, Last(blocks[j - 1]), blocks[j][0].0;
    if i == j - 1 {
      WithinBlock(blocks[i], p, |blocks[i]| - 1);
    } else {
      AcrossBlocks(blocks, i, p, j - 1, |blocks[j - 1]| - 1);
    }
    WithinBlock(blocks[j], 0, q);
    KeyLessOrder(k, last, first);
    KeyLessOrder(k, first, blocks[j][q].0);
  }

  // ----- the index

  ghost predicate SepOk(blocks: seq<seq<Entry>>, seps: seq<TKey>, i: nat)
    requires i < |blocks| && i < |seps|
  {
    blocks[i] != [] &&
    if i + 1 < |blocks| then blocks[i + 1] != [] && Separates(seps[i], Last(blocks[i]), blocks[i + 1][0].0)
    else seps[i] == Last(blocks[i]) || StrLess(Last(blocks[i]).user, seps[i].user)
  }

  ghost predicate SepsOk(blocks: seq<seq<Entry>>, seps: seq<TKey>) {
    |seps| == |blocks| && forall i | 0 <= i < |blocks| :: SepOk(blocks, seps, i)
  }

  /** Entry j of block b is the first at or after the target. */
  ghost predicate IsFirst(blocks: seq<seq<Entry>>, target: TKey, b: nat, j: nat) {
    && b < |blocks| && j < |blocks[b]|
    && !KeyLess(blocks[b][j].0, target)
    && (forall i, p | 0 <= i < b && 0 <= p < |blocks[i]| :: KeyLess(blocks[i][p].0, target))
    && (forall p | 0 <= p < j :: KeyLess(blocks[b][p].0, target))
  }

  /** Index entries before the block are before the target, ... */
  lemma EarlierSeparators(blocks: seq<seq<Entry>>, seps: seq<TKey>, target: TKey, b: nat, j: nat, i: nat)
    requires BlocksOk(blocks) && SepsOk(blocks, seps) && IsFirst(blocks, target, b, j) && i < b
    requires blocks[b][j].0.user == target.user
    ensures KeyLess(seps[i], target)
  {
    assert BlockOk(blocks, i) && BlockOk(blocks, b) && SepOk(blocks, seps, i);
    var last, first := Last(blocks[i]), blocks[i + 1][0].0;
    assert KeyLess(blocks[i][|blocks[i]| - 1].0, target);
    if seps[i] != last {
      if i + 1 < b {
        AcrossBlocks(blocks, i + 1, 0, b, j);
      } else {
        WithinBlock(blocks[b], 0, j);
      }
      UserOrder(first, blocks[b][j].0);
      if first.user != target.user {
        StrLessTransitive(seps[i].user, first.user, target.user);
      }
    }
  }

  lemma UserOrder(a: TKey, b: TKey)
    requires a == b || KeyLess(a, b)
    ensures a.user == b.user || StrLess(a.user, b.user)
  {
  }

  /** ... and the block's own is not. */
  lemma OwnSeparator(blocks: seq<seq<Entry>>, seps: seq<TKey>, target: TKey, b: nat, j: nat)
    requires BlocksOk(blocks) && SepsOk(blocks, seps) && IsFirst(blocks, target, b, j)
    ensures !KeyLess(seps[b], target)
  {
    assert BlockOk(blocks, b) && SepOk(blocks, seps, b);
    var last, sep := Last(blocks[b]), seps[b];
    WithinBlock(blocks[b], j, |blocks[b]| - 1);
    KeyLessOrder(blocks[b][j].0, last, target);
    KeyLessOrder(last, sep, target);
  }

  // ----- the finished table

  /** Index entries with the offsets of their blocks, the blocks by offset, and the filter block. */
  datatype Table = Table(index: seq<(TKey, nat)>, file: map<nat, seq<Entry>>, filter: Str)

  ghost function Keys(index: seq<(TKey, nat)>): (r: seq<TKey>)
    ensures |r| == |index| && forall i | 0 <= i < |r| :: r[i] == index[i].0
  {
    seq(|index|, i requires 0 <= i < |index| => index[i].0)
  }

  /** Block i is where the index says, and its user keys are in the filter of its offset. */
  ghost predicate Stored(t: Table, blocks: seq<seq<Entry>>, groups: seq<seq<Str>>, i: nat)
    requires i < |blocks| == |t.index|
  {
    var at := t.index[i].1;
    && at in t.file && t.file[at] == blocks[i]
    && at / BASE < |groups|
    && forall e | e in blocks[i] :: e.0.user in groups[at / BASE]
  }

  ghost predicate TableOk(t: Table, blocks: seq<seq<Entry>>, create: Create, groups: seq<seq<Str>>, offsets: seq<nat>) {
    && BlocksOk(blocks) && SepsOk(blocks, Keys(t.index))
    && (forall i | 0 <= i < |blocks| :: Stored(t, blocks, groups, i))
    && IsFilterBlock(t.filter, Filters(create, groups), offsets) && Fits(t.filter)
  }

  /** Seeking in a block: the first key not before the target. */
  ghost predicate Sought(keys: seq<TKey>, target: TKey, i: nat) {
    i <= |keys| && (forall k | 0 <= k < i :: KeyLess(keys[k], target)) && (i < |keys| ==> !KeyLess(keys[i], target))
  }

  /** Stands for Block::Iter::Seek, whose search is proved in module BlockCursor. */
  method Seek(keys: seq<TKey>, target: TKey) returns (i: nat)
    ensures Sought(keys, target, i)
  {
    i := 0;
    while i < |keys| && KeyLess(keys[i], target)
      invariant i <= |keys| && forall k | 0 <= k < i :: KeyLess(keys[k], target)
    {
      i := i + 1;
    }
  }

  function KeysOf(b: seq<Entry>): (r: seq<TKey>)
    ensures |r| == |b| && forall i | 0 <= i < |r| :: r[i] == b[i].0
  {
    seq(|b|, i requires 0 <= i < |b| => b[i].0)
  }

  ghost predicate FirstHasUserKey(blocks: seq<seq<Entry>>, target: TKey, b: nat, j: nat) {
    IsFirst(blocks, target, b, j) && blocks[b][j].0.user == target.user
  }

  lemma SoughtIndex(blocks: seq<seq<Entry>>, seps: seq<TKey>, target: TKey, b: nat, j: nat, i: nat)
    requires BlocksOk(blocks) && SepsOk(blocks, seps) && IsFirst(blocks, target, b, j)
    requires blocks[b][j].0.user == target.user && Sought(seps, target, i)
    ensures i == b
  {
    if i < b {
      EarlierSeparators(blocks, seps, target, b, j, i);
    }
    OwnSeparator(blocks, seps, target, b, j);
  }

  /**
   Table::InternalGet. Whenever the first entry at or after the target has the target's user key,
   the one index seek, the filter check and the one block seek find it.
   */
  method InternalGet(t: Table, may: May, useFilter: bool, target: TKey, ghost blocks: seq<seq<Entry>>,
                     ghost create: Create, ghost groups: seq<seq<Str>>, ghost offsets: seq<nat>,
                     ghost b: nat, ghost j: nat)
      returns (r: Option<Entry>)
    ensures r.Some? ==> !KeyLess(r.value.0, target)
    ensures TableOk(t, blocks, create, groups, offsets) && NeverRejects(create, may) ==>
              FirstHasUserKey(blocks, target, b, j) ==> r == Some(blocks[b][j])
  {
    ghost var good := TableOk(t, blocks, create, groups, offsets) && NeverRejects(create, may) &&
                      FirstHasUserKey(blocks, target, b, j);
    var seps := seq(|t.index|, i requires 0 <= i < |t.index| => t.index[i].0);
    var i := Seek(seps, target);
    if good {
      assert seps == Keys(t.index);
      SoughtIndex(blocks, seps, target, b, j, i);
      assert Stored(t, blocks, groups, b) && blocks[b][j] in blocks[b];
      AddedKeysMatch(create, may, groups, Added(t.index[b].1, target.user));
    }
    if i == |t.index| {
      return None;
    }
    var at := t.index[i].1;
    var mayMatch := true;
    if useFilter {
      mayMatch := KeyMayMatch(may, t.filter, at, target.user, Filters(create, groups), offsets);
    }
    if !mayMatch || at !in t.file {
      return None;
    }
    var block := t.file[at];
    var p := Seek(KeysOf(block), target);
    return if p < |block| then Some(block[p]) else None;
  }

  /** With the Bloom policy nothing is left to assume: what a builder with that policy finished is found. */
  method BloomGet(t: Table, hash: Str -> nat, useFilter: bool, target: TKey, ghost blocks: seq<seq<Entry>>,
                  ghost bitsPerKey: nat, ghost k: nat, ghost groups: seq<seq<Str>>, ghost offsets: seq<nat>,
                  ghost b: nat, ghost j: nat)
      returns (r: Option<Entry>)
    requires k <= 30
    ensures TableOk(t, blocks, BloomCreate(hash, bitsPerKey, k), groups, offsets) ==>
              FirstHasUserKey(blocks, target, b, j) ==> r == Some(blocks[b][j])
  {
    BloomNeverRejects(hash, bitsPerKey, k);
    r := InternalGet(t, BloomMay(hash), useFilter, target, blocks, BloomCreate(hash, bitsPerKey, k), groups, offsets,
                     b, j);
  }

  // ----- building

  ghost predicate IndexOk(all: seq<seq<Entry>>, at: seq<nat>, index: seq<(TKey, nat)>, i: nat)
    requires i < |index| && |at| == |all| && i + 1 < |all|
  {
    && all[i] != [] && all[i + 1] != []
    && index[i].1 == at[i]
    && Separates(index[i].0, Last(all[i]), all[i + 1][0].0)
    && Shortened(index[i].0, Last(all[i]))
  }

  /** A separator is the last key of its block or made for seeking. */
  ghost predicate Shortened(sep: TKey, last: TKey) {
    sep == last || sep.tag == SEEK_TAG
  }

  ghost predicate Written(all: seq<seq<Entry>>, at: seq<nat>, file: map<nat, seq<Entry>>, offset: nat, i: nat)
    requires i < |all| == |at|
  {
    at[i] < offset && at[i] in file && file[at[i]] == all[i]
  }

  ghost predicate Filtered(all: seq<seq<Entry>>, at: seq<nat>, added: set<Added>, i: nat)
    requires i < |all| == |at|
  {
    forall e | e in all[i] :: Added(at[i], e.0.user) in added
  }

  /** The builder's fields, with all blocks (the one being filled included) and where each is or will be written. */
  datatype State = State(block: seq<Entry>, lastKey: TKey, pending: bool, handle: nat, offset: nat,
                         index: seq<(TKey, nat)>, file: map<nat, seq<Entry>>, all: seq<seq<Entry>>, at: seq<nat>,
                         added: set<Added>)
  {
    ghost function Flushed(): nat {
      if pending || all == [] then |all| else |all| - 1
    }

    ghost predicate OpenBlockOk()
      requires |at| == |all|
    {
      if pending then all != [] && block == [] && handle == at[|all| - 1]
      else if all == [] then block == []
      else block == all[|all| - 1] && at[|all| - 1] == offset
    }

    ghost predicate Built() {
      && |at| == |all| && BlocksOk(all)
      && OpenBlockOk()
      && (all != [] ==> all[|all| - 1] != [] && lastKey == Last(all[|all| - 1]))
      && |index| == (if all == [] then 0 else |all| - 1)
      && (forall i | 0 <= i < |index| :: IndexOk(all, at, index, i))
      && (forall i | 0 <= i < Flushed() :: Written(all, at, file, offset, i))
      && (forall i | 0 <= i < |all| :: Filtered(all, at, added, i))
    }
  }

  ghost function AfterFlush(s: State, size: nat): State {
    s.(file := s.file[s.offset := s.block], handle := s.offset, pending := true, offset := s.offset + size, block := [])
  }

  lemma FlushStep(s: State, size: nat)
    requires s.Built() && s.block != [] && size > 0
    ensures AfterFlush(s, size).Built()
  {
    var t := AfterFlush(s, size);
    forall i | 0 <= i < |s.all|
      ensures Written(t.all, t.at, t.file, t.offset, i)
    {
      assert i < |s.all| - 1 ==> Written(s.all, s.at, s.file, s.offset, i);
    }
  }

  ghost function WithFirst(s: State, e: Entry, index: seq<(TKey, nat)>): State {
    s.(block := [e], lastKey := e.0, pending := false, index := index, all := s.all + [[e]], at := s.at + [s.offset],
       added := s.added + {Added(s.offset, e.0.user)})
  }

  /** The index after the entry for the last block, if one was pending, has been added. */
  ghost predicate Indexed(s: State, key: TKey, index: seq<(TKey, nat)>) {
    if s.pending then |index| > 0 && index[..|index| - 1] == s.index && index[|index| - 1].1 == s.handle &&
                      Separates(index[|index| - 1].0, s.lastKey, key) && Shortened(index[|index| - 1].0, s.lastKey)
    else index == s.index
  }

  lemma FirstStep(s: State, e: Entry, index: seq<(TKey, nat)>)
    requires s.Built() && s.block == [] && (s.all != [] ==> KeyLess(s.lastKey, e.0)) && Indexed(s, e.0, index)
    ensures WithFirst(s, e, index).Built()
  {
    var t, n := WithFirst(s, e, index), |s.all|;
    OpenBlock(s.all, e);
    forall i | 0 <= i < |t.index|
      ensures IndexOk(t.all, t.at, t.index, i)
    {
      assert i < |s.index| ==> IndexOk(s.all, s.at, s.index, i) && index[i] == s.index[i];
    }
    forall i | 0 <= i < n
      ensures Written(t.all, t.at, t.file, t.offset, i)
    {
      assert Written(s.all, s.at, s.file, s.offset, i);
    }
    forall i | 0 <= i < |t.all|
      ensures Filtered(t.all, t.at, t.added, i)
    {
      assert i < n ==> Filtered(s.all, s.at, s.added, i);
    }
  }

  ghost function WithNext(s: State, e: Entry): State
    requires s.all != []
  {
    s.(block := s.block + [e], lastKey := e.0, all := s.all[|s.all| - 1 := s.block + [e]],
       added := s.added + {Added(s.offset, e.0.user)})
  }

  lemma NextStep(s: State, e: Entry)
    requires s.Built() && s.block != [] && KeyLess(s.lastKey, e.0)
    ensures s.all != [] && WithNext(s, e).Built()
  {
    var t, n := WithNext(s, e), |s.all| - 1;
    FillBlock(s.all, e);
    forall i | 0 <= i < |t.index|
      ensures IndexOk(t.all, t.at, t.index, i)
    {
      assert IndexOk(s.all, s.at, s.index, i);
    }
    forall i | 0 <= i < n
      ensures Written(t.all, t.at, t.file, t.offset, i)
    {
      assert Written(s.all, s.at, s.file, s.offset, i);
    }
    forall i | 0 <= i < |t.all|
      ensures Filtered(t.all, t.at, t.added, i)
    {
      assert Filtered(s.all, s.at, s.added, i);
    }
  }

  class TableBuilder {
    const filter: FilterBlockBuilder
    var block: seq<Entry>
    var lastKey: TKey
    var pendingIndexEntry: bool
    var pendingHandle: nat
    var offset: nat
    var index: seq<(TKey, nat)>
    var file: map<nat, seq<Entry>>
    ghost var all: seq<seq<Entry>>
    ghost var at: seq<nat>

    ghost function Abs(): State
      reads this, filter
    {
      State(block, lastKey, pendingIndexEntry, pendingHandle, offset, index, file, all, at, filter.added)
    }

    ghost predicate Valid()
      reads this, filter
    {
      Abs().Built() && filter.Valid() && |filter.offsets| == offset / BASE
    }

    constructor (create: Create)
      ensures Valid() && all == [] && offset == 0 && fresh(filter) && filter.create == create
    {
      filter := new FilterBlockBuilder(create);
      block, lastKey, pendingIndexEntry, pendingHandle, offset := [], TKey([], 0), false, 0, 0;
      index, file := [], map[];
      all, at := [], [];
    }

    /** The entry of the last block in the index, once the key that follows it is known. */
    method IndexPending(key: TKey)
      modifies this`index, this`pendingIndexEntry
      ensures !pendingIndexEntry && Indexed(old(Abs()), key, index)
    {
      if pendingIndexEntry {
        var sep := InternalSeparator(lastKey, key);
        index := index + [(sep, pendingHandle)];
        pendingIndexEntry := false;
      }
    }

    /** An entry that opens a block; the previous block may be waiting for its index entry. */
    method AddFirst(key: TKey, value: Str)
      requires Valid() && block == [] && (all != [] ==> KeyLess(lastKey, key))
      modifies this, filter
      ensures Valid() && lastKey == key && all == old(all) + [[(key, value)]]
      ensures Abs() == WithFirst(old(Abs()), (key, value), index)
    {
      ghost var s, e := Abs(), (key, value);
      IndexPending(key);
      filter.AddKey(key.user, offset);
      lastKey := key;
      block := [(key, value)];
      FirstStep(s, e, index);
      all, at := all + [[e]], at + [offset];
      assert Abs() == WithFirst(s, e, index);
    }

    /** An entry that goes into the open block. */
    method AddNext(key: TKey, value: Str)
      requires Valid() && block != [] && KeyLess(lastKey, key)
      modifies this, filter
      ensures Valid() && lastKey == key && old(all) != []
      ensures all == old(all)[|old(all)| - 1 := old(block) + [(key, value)]]
      ensures Abs() == WithNext(old(Abs()), (key, value))
    {
      ghost var s, e := Abs(), (key, value);
      filter.AddKey(key.user, offset);
      lastKey := key;
      block := block + [(key, value)];
      NextStep(s, e);
      all := all[|all| - 1 := block];
      assert Abs() == WithNext(s, e);
    }

    /** TableBuilder::Add; `full` says whether the block has reached its size. */
    method Add(key: TKey, value: Str, full: bool, size: nat)
      requires Valid() && (all != [] ==> KeyLess(lastKey, key)) && size > 0
      modifies this, filter
      ensures Valid() && lastKey == key
      ensures all == if old(block) == [] then old(all) + [[(key, value)]]
                     else old(all)[|old(all)| - 1 := old(block) + [(key, value)]]
    {
      if |block| == 0 {
        AddFirst(key, value);
      } else {
        AddNext(key, value);
      }
      if full {
        Flush(size);
      }
    }

    /** Flush: the open block goes to the file; `size` is what it takes there. */
    method Flush(size: nat)
      requires Valid() && size > 0
      modifies this, filter
      ensures Valid() && all == old(all) && block == [] && lastKey == old(lastKey)
      ensures Abs() == if old(block) == [] then old(Abs()) else AfterFlush(old(Abs()), size)
    {
      if |block| == 0 {
        return;
      }
      ghost var s := Abs();
      FlushStep(s, size);
      DivGrows(offset, size);
      filter.StartBlock(offset + size);
      file := file[offset := block];
      pendingHandle := offset;
      pendingIndexEntry := true;
      offset := offset + size;
      block := [];
      assert Abs() == AfterFlush(s, size);
    }

    /** Finish: the last block, the filter block and the last index entry. */
    method Finish(size: nat) returns (t: Table)
      requires Valid() && size > 0
      modifies this, filter
      ensures Fits(t.filter) ==> TableOk(t, old(all), filter.create, filter.groups, filter.offsets)
      ensures |t.index| == |old(all)| && forall i | 0 <= i < |t.index| :: Placed(old(all), old(at), t.index, i)
    {
      Flush(size);
      ghost var s := Abs();
      var contents := filter.Finish();
      if pendingIndexEntry {
        var sep := InternalSuccessor(lastKey);
        index := index + [(sep, pendingHandle)];
        pendingIndexEntry := false;
      }
      t := Table(index, file, contents);
      FinishedTable(s, t, filter.groups);
    }
  }

  /** Index entry i is that of block i. */
  ghost predicate Placed(all: seq<seq<Entry>>, at: seq<nat>, index: seq<(TKey, nat)>, i: nat) {
    && i < |index| && i < |all| && i < |at| && all[i] != []
    && index[i].1 == at[i] && Shortened(index[i].0, Last(all[i]))
  }

  /** The table made of a builder's state once everything is flushed. */
  lemma FinishedTable(s: State, t: Table, groups: seq<seq<Str>>)
    requires s.Built() && s.block == [] && t.file == s.file
    requires if s.pending then |t.index| > 0 && t.index[..|t.index| - 1] == s.index &&
               t.index[|t.index| - 1].1 == s.handle &&
               Shortened(t.index[|t.index| - 1].0, s.lastKey) &&
               (t.index[|t.index| - 1].0 == s.lastKey || StrLess(s.lastKey.user, t.index[|t.index| - 1].0.user))
             else t.index == s.index
    requires forall a | a in s.added :: a.offset / BASE < |groups| && a.key in groups[a.offset / BASE]
    ensures BlocksOk(s.all) && SepsOk(s.all, Keys(t.index))
    ensures forall i | 0 <= i < |s.all| :: Stored(t, s.all, groups, i)
    ensures |t.index| == |s.all| && forall i | 0 <= i < |t.index| :: Placed(s.all, s.at, t.index, i)
  {
    forall i | 0 <= i < |s.all|
      ensures SepOk(s.all, Keys(t.index), i) && Placed(s.all, s.at, t.index, i)
    {
      assert BlockOk(s.all, i);
      assert i < |s.index| ==> IndexOk(s.all, s.at, s.index, i) && t.index[i] == s.index[i];
    }
    forall i | 0 <= i < |s.all|
      ensures Stored(t, s.all, groups, i)
    {
      assert Written(s.all, s.at, s.file, s.offset, i) && Filtered(s.all, s.at, s.added, i);
      assert Placed(s.all, s.at, t.index, i);
      forall e | e in s.all[i]
        ensures e.0.user in groups[s.at[i] / BASE] && s.at[i] / BASE < |groups|
      {
        assert Added(s.at[i], e.0.user) in s.added;
      }
      assert BlockOk(s.all, i) && s.all[i][0] in s.all[i];
    }
  }

  lemma SortedAppend(b: seq<Entry>, e: Entry)
    requires SortedBlock(b) && (b != [] ==> KeyLess(Last(b), e.0))
    ensures SortedBlock(b + [e])
  {
    var c := b + [e];
    forall i | 0 <= i < |c| - 1
      ensures InOrder(c, i)
    {
      assert i < |b| - 1 ==> InOrder(b, i);
    }
  }

  /** A new block behind the others. */
  lemma OpenBlock(all: seq<seq<Entry>>, e: Entry)
    requires BlocksOk(all) && (all != [] ==> all[|all| - 1] != [] && KeyLess(Last(all[|all| - 1]), e.0))
    ensures BlocksOk(all + [[e]])
  {
    var more := all + [[e]];
    assert SortedBlock([e]);
    forall i | 0 <= i < |more|
      ensures BlockOk(more, i)
    {
      assert i < |all| ==> BlockOk(all, i);
    }
  }

  /** One more entry in the last block. */
  lemma FillBlock(all: seq<seq<Entry>>, e: Entry)
    requires BlocksOk(all) && all != [] && all[|all| - 1] != [] && KeyLess(Last(all[|all| - 1]), e.0)
    ensures BlocksOk(all[|all| - 1 := all[|all| - 1] + [e]])
  {
    var n := |all| - 1;
    var more := all[n := all[n] + [e]];
    assert BlockOk(all, n);
    SortedAppend(all[n], e);
    forall i | 0 <= i < |more|
      ensures BlockOk(more, i)
    {
      assert BlockOk(all, i);
    }
  }

  lemma DivGrows(offset: nat, size: nat)
    ensures offset / BASE <= (offset + size) / BASE
  {
  }
}
