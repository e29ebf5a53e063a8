/** The filter block of a table: one filter for every 2 KB of data-block offsets. */
module FilterBlock {
  import opened Bytes
  import opened Coding
  import Blocks
  import Bloom

  /** kFilterBase */
  const BASE: nat := 2048
  /** kFilterBaseLg */
  const BASE_LG: Byte := 11

  type Create = seq<Str> -> Str
  type May = (Str, Str) -> bool

  /** The filter of a group of keys; a group without keys has an empty one. */
  ghost function FilterFor(create: Create, group: seq<Str>): Str {
    if group == [] then [] else create(group)
  }

  ghost function Filters(create: Create, groups: seq<seq<Str>>): (r: seq<Str>)
    ensures |r| == |groups| && forall i | 0 <= i < |r| :: r[i] == FilterFor(create, groups[i])
  {
    if groups == [] then [] else Filters(create, groups[..|groups| - 1]) + [FilterFor(create, groups[|groups| - 1])]
  }

  /** Where each chunk of a concatenation starts. */
  ghost predicate Starts(chunks: seq<Str>, starts: seq<nat>) {
    |starts| == |chunks| && forall i | 0 <= i < |chunks| :: StartAt(chunks, starts, i)
  }

  ghost predicate StartAt(chunks: seq<Str>, starts: seq<nat>, i: nat)
    requires i < |chunks| == |starts|
  {
    starts[i] == |Concat(chunks[..i])|
  }

  lemma StartsAppend(chunks: seq<Str>, starts: seq<nat>, last: Str)
    requires Starts(chunks, starts)
    ensures Starts(chunks + [last], starts + [|Concat(chunks)|]) && Concat(chunks + [last]) == Concat(chunks) + last
  {
    ConcatAppend(chunks, last);
    var c, s := chunks + [last], starts + [|Concat(chunks)|];
    forall i | 0 <= i < |c|
      ensures StartAt(c, s, i)
    {
      assert i < |chunks| ==> StartAt(chunks, starts, i);
      assert c[..i] == chunks[..i];
    }
  }

  /** A key that was added while a block at `offset` was being filled. */
  datatype Added = Added(offset: nat, key: Str)

  ghost predicate Recorded(a: Added, groups: seq<seq<Str>>, pending: seq<Str>) {
    var i := a.offset / BASE;
    if i < |groups| then a.key in groups[i] else i == |groups| && a.key in pending
  }

  class FilterBlockBuilder {
    const create: Create
    var keys: Str
    var start: seq<nat>
    var result: Str
    var offsets: seq<nat>
    ghost var pending: seq<Str>
    ghost var groups: seq<seq<Str>>
    ghost var added: set<Added>

    ghost predicate Valid()
      reads this
    {
      && keys == Concat(pending) && Starts(pending, start)
      && result == Concat(Filters(create, groups)) && Starts(Filters(create, groups), offsets)
      && forall a | a in added :: Recorded(a, groups, pending)
    }

    constructor (create: Create)
      ensures Valid() && added == {} && offsets == [] && this.create == create
    {
      this.create := create;
      keys, start, result, offsets := [], [], [], [];
      pending, groups, added := [], [], {};
    }

    /** AddKey, for a key of the block at `offset`. */
    method AddKey(key: Str, ghost offset: nat)
      requires Valid() && offset / BASE == |offsets|
      modifies this
      ensures Valid() && added == old(added) + {Added(offset, key)} && offsets == old(offsets)
    {
      StartsAppend(pending, start, key);
      start := start + [|keys|];
      keys := keys + key;
      pending := pending + [key];
      added := added + {Added(offset, key)};
    }

    /** GenerateFilter: the pending keys become the next group. */
    method GenerateFilter()
      requires Valid()
      modifies this
      ensures Valid() && added == old(added)
      ensures groups == old(groups) + [old(pending)] && pending == [] && |offsets| == |old(offsets)| + 1
    {
      ghost var filter := FilterFor(create, pending);
      StartsAppend(Filters(create, groups), offsets, filter);
      FiltersAppend(create, groups, pending);
      offsets := offsets + [|result|];
      if |start| > 0 {
        var tmpKeys := SplitKeys(keys, start, pending);
        result := result + create(tmpKeys);
      } else {
        assert result + [] == result;
      }
      RecordedAfter(added, groups, pending);
      groups, pending := groups + [pending], [];
      keys, start := [], [];
    }

    /** StartBlock: all filters before the one of the new block are generated. */
    method StartBlock(offset: nat)
      requires Valid() && |offsets| <= offset / BASE
      modifies this
      ensures Valid() && added == old(added) && |offsets| == offset / BASE
    {
      while offset / BASE > |offsets|
        invariant Valid() && added == old(added) && |offsets| <= offset / BASE
      {
        GenerateFilter();
      }
    }

    /** Finish */
    method Finish() returns (contents: Str)
      requires Valid()
      modifies this
      ensures IsFilterBlock(contents, Filters(create, groups), offsets) && added == old(added)
      ensures forall a | a in added :: a.offset / BASE < |groups| && a.key in groups[a.offset / BASE]
    {
      if |start| > 0 {
        GenerateFilter();
      } else {
        assert pending == [];
      }
      var table := Blocks.EncodeRestarts(offsets + [|result|]);
      contents := result + table + [BASE_LG];
    }
  }

  /** Filters, their offsets, the offset of that array, and the base. */
  ghost predicate IsFilterBlock(contents: Str, filters: seq<Str>, offsets: seq<nat>) {
    && Starts(filters, offsets)
    && contents == Concat(filters) + Blocks.RestartBytes(offsets + [|Concat(filters)|]) + [BASE_LG]
  }

  lemma FiltersAppend(create: Create, groups: seq<seq<Str>>, group: seq<Str>)
    ensures Filters(create, groups + [group]) == Filters(create, groups) + [FilterFor(create, group)]
  {
  }

  lemma RecordedAfter(added: set<Added>, groups: seq<seq<Str>>, pending: seq<Str>)
    requires forall a | a in added :: Recorded(a, groups, pending)
    ensures forall a | a in added :: Recorded(a, groups + [pending], [])
  {
  }

  /** The key list back from its flattened form. */
  method SplitKeys(keys: Str, start: seq<nat>, ghost pending: seq<Str>) returns (r: seq<Str>)
    requires keys == Concat(pending) && Starts(pending, start)
    ensures r == pending
  {
    r := [];
    var ends := start + [|keys|];
    for i := 0 to |start|
      invariant r == pending[..i]
    {
      KeySlice(pending, start, keys, i);
      r := r + [keys[start[i]..ends[i + 1]]];
    }
    assert pending[..|start|] == pending;
  }

  lemma KeySlice(pending: seq<Str>, start: seq<nat>, keys: Str, i: nat)
    requires keys == Concat(pending) && Starts(pending, start) && i < |start|
    ensures var end := (start + [|keys|])[i + 1];
            start[i] <= end <= |keys| && keys[start[i]..end] == pending[i]
  {
    assert StartAt(pending, start, i);
    ChunkAt(pending, [], [], i);
    assert [] + keys + [] == keys;
    assert pending[..i + 1] == pending[..i] + [pending[i]];
    ConcatAppend(pending[..i], pending[i]);
    if i + 1 < |start| {
      assert StartAt(pending, start, i + 1);
    } else {
      assert pending[..i + 1] == pending;
    }
  }

  // ----- reading

  ghost predicate Fits(contents: Str) {
    |contents| < MAX_LEN
  }

  /** Entry j of the offset array; the one behind the last offset is the array's own offset. */
  lemma OffsetAt(contents: Str, filters: seq<Str>, offsets: seq<nat>, j: nat, at: nat)
    requires IsFilterBlock(contents, filters, offsets) && Fits(contents) && j <= |offsets|
    requires at == |Concat(filters)| + 4 * j
    ensures at + 4 <= |contents| - 1
    ensures FixedValue(contents[at..at + 4]) == if j < |offsets| then offsets[j] else |Concat(filters)|
  {
    OffsetBound(filters, offsets, j);
    EntryAt(contents, Concat(filters), offsets + [|Concat(filters)|], j);
  }

  lemma EntryAt(contents: Str, data: Str, all: seq<nat>, j: nat)
    requires contents == data + Blocks.RestartBytes(all) + [BASE_LG] && j < |all| && all[j] < MAX_LEN
    ensures var at := |data| + 4 * j; at + 4 < |contents| && FixedValue(contents[at..at + 4]) == all[j]
  {
    Blocks.RestartAt(all, j);
    OffsetBytes(contents, data, Blocks.RestartBytes(all), j, Fixed(all[j], 4));
    FourByteValue(all[j]);
  }

  lemma FourByteValue(v: nat)
    requires v < MAX_LEN
    ensures FixedValue(Fixed(v, 4)) == v
  {
    FourBytes();
    FixedRoundTrip(v, 4);
  }

  lemma OffsetBytes(contents: Str, data: Str, table: Str, j: nat, bytes: Str)
    requires contents == data + table + [BASE_LG] && 4 * j + 4 <= |table| && table[4 * j..4 * j + 4] == bytes
    ensures var at := |data| + 4 * j; at + 4 < |contents| && contents[at..at + 4] == bytes
  {
    SliceBehind(data, table, [BASE_LG], 4 * j);
  }

  lemma SliceBehind(a: Str, b: Str, c: Str, i: nat)
    requires i + 4 <= |b|
    ensures (a + b + c)[|a| + i..|a| + i + 4] == b[i..i + 4]
  {}

  lemma OffsetBound(filters: seq<Str>, offsets: seq<nat>, j: nat)
    requires Starts(filters, offsets)
    ensures j < |offsets| ==> offsets[j] <= |Concat(filters)|
  {
    if j < |offsets| {
      assert StartAt(filters, offsets, j);
      ConcatMonotone(filters, j);
    }
  }

  /** A filter lies between its offset and the next entry of the array. */
  lemma FilterSlice(contents: Str, filters: seq<Str>, offsets: seq<nat>, i: nat, start: nat, limit: nat)
    requires IsFilterBlock(contents, filters, offsets) && i < |filters|
    requires start == offsets[i] && limit == if i + 1 < |offsets| then offsets[i + 1] else |Concat(filters)|
    ensures start <= limit <= |Concat(filters)| && contents[start..limit] == filters[i]
  {
    KeySlice(filters, offsets, Concat(filters), i);
    assert contents[start..limit] == Concat(filters)[start..limit];
  }

  lemma LastWord(contents: Str, filters: seq<Str>, offsets: seq<nat>)
    requires IsFilterBlock(contents, filters, offsets) && Fits(contents)
    ensures |contents| == |Concat(filters)| + 4 * |filters| + 5 && contents[|contents| - 1] == BASE_LG
    ensures FixedValue(contents[|contents| - 5..|contents| - 1]) == |Concat(filters)|
  {
    OffsetAt(contents, filters, offsets, |offsets|, |contents| - 5);
  }

  /** offset >> lg */
  function ShiftRight(offset: nat, lg: nat): nat {
    if lg == 0 then offset else ShiftRight(offset / 2, lg - 1)
  }

  lemma ShiftByTwo(offset: nat, lg: nat)
    requires lg >= 2
    ensures ShiftRight(offset, lg) == ShiftRight(offset / 4, lg - 2)
  {
    assert offset / 2 / 2 == offset / 4;
  }

  lemma ShiftByBase(offset: nat)
    ensures ShiftRight(offset, BASE_LG) == offset / BASE
  {
    ShiftByTwo(offset, 11);
    ShiftByTwo(offset / 4, 9);
    ShiftByTwo(offset / 16, 7);
    ShiftByTwo(offset / 64, 5);
    ShiftByTwo(offset / 256, 3);
    assert ShiftRight(offset / 1024, 1) == offset / 1024 / 2;
  }

  /** FilterBlockReader: the filter of the block's offset decides; anything unreadable is a match. */
  method KeyMayMatch(may: May, contents: Str, blockOffset: nat, key: Str, ghost filters: seq<Str>,
                     ghost offsets: seq<nat>)
      returns (r: bool)
    ensures IsFilterBlock(contents, filters, offsets) && Fits(contents) && blockOffset / BASE < |filters| ==>
              r == may(key, filters[blockOffset / BASE])
    ensures IsFilterBlock(contents, filters, offsets) && Fits(contents) && blockOffset / BASE >= |filters| ==> r
    ensures |contents| < 5 ==> r
  {
    var n := |contents|;
    ghost var readable := IsFilterBlock(contents, filters, offsets) && Fits(contents);
    ghost var good := readable && blockOffset / BASE < |filters|;
    if readable {
      LastWord(contents, filters, offsets);
      ShiftByBase(blockOffset);
    }
    if n < 5 {
      return true;
    }
    var last := DecodeFixed(contents[n - 5..n - 1]);
    if last > n - 5 {
      return true;
    }
    var num, index := (n - 5 - last) / 4, ShiftRight(blockOffset, contents[n - 1]);
    if index < num {
      var start, limit := ReadOffsets(contents, last, index, filters, offsets);
      if good {
        FilterSlice(contents, filters, offsets, index, start, limit);
      }
      if start <= limit <= last {
        return may(key, contents[start..limit]);
      } else if start == limit {
        return false;
      }
    }
    return true;
  }

  ghost predicate HasOffset(filters: seq<Str>, last: nat, index: nat) {
    index < |filters| && last == |Concat(filters)|
  }

  method ReadOffsets(contents: Str, last: nat, index: nat, ghost filters: seq<Str>, ghost offsets: seq<nat>)
      returns (start: nat, limit: nat)
    requires last + 4 * index + 8 <= |contents|
    ensures IsFilterBlock(contents, filters, offsets) && Fits(contents) && HasOffset(filters, last, index) ==>
              start == offsets[index] && limit == if index + 1 < |offsets| then offsets[index + 1] else last
  {
    var at := last + 4 * index;
    if IsFilterBlock(contents, filters, offsets) && Fits(contents) && HasOffset(filters, last, index) {
      OffsetAt(contents, filters, offsets, index, at);
      OffsetAt(contents, filters, offsets, index + 1, at + 4);
    }
    start := DecodeFixed(contents[at..at + 4]);
    limit := DecodeFixed(contents[at + 4..at + 8]);
  }

  /** The policy accepts every key a filter was made from. */
  ghost predicate NeverRejects(create: Create, may: May) {
    forall keys: seq<Str>, k | k in keys :: may(k, create(keys))
  }

  /** A key added for a block is never rejected at that block's offset. */
  lemma AddedKeysMatch(create: Create, may: May, groups: seq<seq<Str>>, a: Added)
    requires NeverRejects(create, may)
    requires a.offset / BASE < |groups| && a.key in groups[a.offset / BASE]
    ensures may(a.key, Filters(create, groups)[a.offset / BASE])
  {
  }

  /** NewBloomFilterPolicy(bitsPerKey) with k probes, as the two functions a filter block needs. */
  function BloomCreate(hash: Str -> nat, bitsPerKey: nat, k: nat): Create
    requires k <= 30
  {
    (keys: seq<Str>) => Bloom.Filter(hash, keys, bitsPerKey, k)
  }

  function BloomMay(hash: Str -> nat): May {
    (key: Str, filter: Str) => Bloom.MayMatch(hash, key, filter)
  }

  lemma BloomNeverRejects(hash: Str -> nat, bitsPerKey: nat, k: nat)
    requires k <= 30
    ensures NeverRejects(BloomCreate(hash, bitsPerKey, k), BloomMay(hash))
  {
    forall keys: seq<Str>, key | key in keys
      ensures BloomMay(hash)(key, BloomCreate(hash, bitsPerKey, k)(keys))
    {
      Bloom.FilterExact(hash, keys, bitsPerKey, k);
    }
  }
}
