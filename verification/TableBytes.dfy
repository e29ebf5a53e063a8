/** Point lookups in a table of bytes: index block, filter block and data blocks as they are in the file. */
module TableBytes {
  import opened Bytes
  import opened Coding
  import opened Separators
  import opened Blocks
  import opened Table
  import F = FilterBlock
  import C = BlockCursor

  // ----- internal keys among the reals

  /** How far the rank of a string is at least from the next one. */
  function Gap(s: Str): (r: real)
    ensures r > 0.0
  {
    if s == [] then 1.0 / 257.0 else Gap(s[1..]) / 257.0
  }

  lemma {:induction false} GapRoom(s: Str)
    ensures Rank(s) + Gap(s) <= 1.0
  {
    if s != [] {
      GapRoom(s[1..]);
      assert Rank(s) + Gap(s) == (s[0] as real + 1.0 + (Rank(s[1..]) + Gap(s[1..]))) / 257.0;
    }
  }

  lemma {:induction false} GapBetween(a: Str, b: Str)
    requires StrLess(a, b)
    ensures Rank(a) + Gap(a) <= Rank(b)
  {
    if a != [] {
      assert Rank(a) + Gap(a) == (a[0] as real + 1.0 + (Rank(a[1..]) + Gap(a[1..]))) / 257.0;
      if a[0] == b[0] {
        GapBetween(a[1..], b[1..]);
      } else {
        GapRoom(a[1..]);
      }
    }
  }

  /** Between 0 and 1, the higher the lower the tag. */
  function TagShare(tag: nat): (r: real)
    requires tag < TWO_TO_64
    ensures 0.0 <= r < 1.0
  {
    (TWO_TO_64 - 1 - tag) as real / TWO_TO_64 as real
  }

  function KeyRank(k: TKey): real
    requires k.tag < TWO_TO_64
  {
    Rank(k.user) + Gap(k.user) * TagShare(k.tag)
  }

  lemma ScaleOrder(g: real, x: real, y: real)
    requires g > 0.0
    ensures g * x < g * y <==> x < y
  {
    assert g * y - g * x == g * (y - x);
    if x < y {
      assert g * (y - x) > 0.0;
    } else {
      assert g * (x - y) >= 0.0 && g * x - g * y == g * (x - y);
    }
  }

  lemma ShiftOrder(r: real, g: real, x: real, y: real)
    requires g > 0.0
    ensures r + g * x < r + g * y <==> x < y
  {
    ScaleOrder(g, x, y);
  }

  lemma ScaleBounds(g: real, x: real)
    requires g > 0.0 && 0.0 <= x < 1.0
    ensures 0.0 <= g * x < g
  {
    ScaleOrder(g, x, 1.0);
    if x > 0.0 {
      ScaleOrder(g, 0.0, x);
    }
  }

  lemma KeyRankBounds(k: TKey)
    requires k.tag < TWO_TO_64
    ensures Rank(k.user) <= KeyRank(k) < Rank(k.user) + Gap(k.user)
  {
    ScaleBounds(Gap(k.user), TagShare(k.tag));
  }

  lemma TagOrder(a: nat, b: nat)
    requires a < TWO_TO_64 && b < TWO_TO_64
    ensures TagShare(a) < TagShare(b) <==> a > b
  {
  }

  lemma SameUserOrder(a: TKey, b: TKey)
    requires a.tag < TWO_TO_64 && b.tag < TWO_TO_64 && a.user == b.user
    ensures KeyRank(a) < KeyRank(b) <==> a.tag > b.tag
  {
    ShiftOrder(Rank(a.user), Gap(a.user), TagShare(a.tag), TagShare(b.tag));
    TagOrder(a.tag, b.tag);
  }

  lemma EarlierUser(a: TKey, b: TKey)
    requires a.tag < TWO_TO_64 && b.tag < TWO_TO_64 && StrLess(a.user, b.user)
    ensures KeyRank(a) < KeyRank(b)
  {
    KeyRankBounds(a);
    KeyRankBounds(b);
    GapBetween(a.user, b.user);
  }

  /** The internal order of keys is the order of their ranks. */
  lemma KeyRankOrder(a: TKey, b: TKey)
    requires a.tag < TWO_TO_64 && b.tag < TWO_TO_64
    ensures KeyLess(a, b) <==> KeyRank(a) < KeyRank(b)
  {
    StrLessTotal(a.user, b.user);
    if StrLess(a.user, b.user) {
      EarlierUser(a, b);
    } else if StrLess(b.user, a.user) {
      EarlierUser(b, a);
    } else {
      SameUserOrder(a, b);
    }
  }

  // ----- encoded internal keys

  ghost function EncodeKey(k: TKey): Str {
    k.user + Fixed(k.tag, 8)
  }

  /** User key and tag of an encoded key; anything too short counts as an empty user key. */
  function DecodeKey(s: Str): (k: TKey)
    ensures k.tag < TWO_TO_64
  {
    if |s| < 8 then TKey([], 0) else TKey(s[..|s| - 8], FixedValue(s[|s| - 8..]) % TWO_TO_64)
  }

  /** The comparator of the blocks of a table. */
  function Ord(s: Str): real {
    KeyRank(DecodeKey(s))
  }

  lemma KeyRoundTrip(k: TKey)
    requires k.tag < TWO_TO_64
    ensures DecodeKey(EncodeKey(k)) == k
  {
    var s := EncodeKey(k);
    EightBytes();
    FixedRoundTrip(k.tag, 8);
    assert s[..|s| - 8] == k.user && s[|s| - 8..] == Fixed(k.tag, 8);
  }

  lemma OrdOrder(a: TKey, b: TKey)
    requires a.tag < TWO_TO_64 && b.tag < TWO_TO_64
    ensures KeyLess(a, b) <==> Ord(EncodeKey(a)) < Ord(EncodeKey(b))
  {
    KeyRoundTrip(a);
    KeyRoundTrip(b);
    KeyRankOrder(a, b);
  }

  // ----- blocks of encoded keys

  /** The block's keys are these, encoded. */
  ghost predicate HasKeys(keys: seq<TKey>, sh: Shape) {
    |sh.entries| == |keys| &&
    forall i | 0 <= i < |keys| :: keys[i].tag < TWO_TO_64 && sh.entries[i].0 == EncodeKey(keys[i])
  }

  ghost predicate KeysAscend(keys: seq<TKey>) {
    forall i | 0 <= i < |keys| - 1 :: KeyLess(keys[i], keys[i + 1])
  }

  lemma EncodedIncrease(keys: seq<TKey>, sh: Shape)
    requires HasKeys(keys, sh) && KeysAscend(keys)
    ensures sh.KeysIncrease(Ord)
  {
    forall i | 0 <= i < |sh.entries| - 1
      ensures sh.KeyOrder(Ord, i)
    {
      OrdOrder(keys[i], keys[i + 1]);
    }
  }

  /** Landing among the encoded keys is landing among the keys. */
  lemma LandsSought(keys: seq<TKey>, sh: Shape, target: TKey, c: nat)
    requires HasKeys(keys, sh) && target.tag < TWO_TO_64 && C.Lands(sh, Ord, EncodeKey(target), c)
    ensures Sought(keys, target, c)
  {
    forall k | 0 <= k < c
      ensures KeyLess(keys[k], target)
    {
      assert C.BeforeTarget(sh, Ord, EncodeKey(target), k);
      OrdOrder(keys[k], target);
    }
    if c < |keys| {
      OrdOrder(keys[c], target);
    }
  }

  ghost predicate IsSearch(contents: Str, target: Str, goal: TKey, keys: seq<TKey>, sh: Shape) {
    && IsBlock(contents, sh) && C.Fits(sh) && HasKeys(keys, sh) && KeysAscend(keys)
    && goal.tag < TWO_TO_64 && target == EncodeKey(goal)
  }

  /** Finding the first key at or after the target in a block of bytes. */
  method FindKey(contents: Str, target: Str, ghost goal: TKey, ghost keys: seq<TKey>, ghost sh: Shape)
      returns (r: Option<Pair>, ghost c: nat)
    ensures IsSearch(contents, target, goal, keys, sh) ==>
              Sought(keys, goal, c) && r == if c < |keys| then Some(sh.entries[c]) else None
  {
    ghost var good := IsSearch(contents, target, goal, keys, sh);
    if good {
      EncodedIncrease(keys, sh);
    }
    r, c := C.Find(Ord, contents, target, sh);
    if good {
      LandsSought(keys, sh, goal, c);
    }
  }

  // ----- block handles

  ghost function HandleBytes(offset: nat, size: nat): Str {
    Varint(offset) + Varint(size)
  }

  /** BlockHandle::DecodeFrom */
  method DecodeHandle(s: Str, ghost offset: nat, ghost size: nat) returns (r: Option<(nat, nat)>)
    ensures offset < TWO_TO_64 && size < TWO_TO_64 && s == HandleBytes(offset, size) ==> r == Some((offset, size))
  {
    if offset < TWO_TO_64 && size < TWO_TO_64 && s == HandleBytes(offset, size) {
      HandleRoundTrip(s, offset, size);
    }
    var first := GetVarint(s, 10);
    if first.None? {
      return None;
    }
    var second := GetVarint(s[first.value.1..], 10);
    if second.None? {
      return None;
    }
    return Some((first.value.0 % TWO_TO_64, second.value.0 % TWO_TO_64));
  }

  lemma HandleRoundTrip(s: Str, offset: nat, size: nat)
    requires offset < TWO_TO_64 && size < TWO_TO_64 && s == HandleBytes(offset, size)
    ensures VarintAt(s, 10) == Some((offset, |Varint(offset)|))
    ensures VarintAt(s[|Varint(offset)|..], 10) == Some((size, |Varint(size)|))
  {
    TenBytes();
    VarintRoundTrip(offset, 10, Varint(size));
    VarintRoundTrip(size, 10, []);
    assert s[|Varint(offset)|..] == Varint(size) + [];
  }

  // ----- tables

  /** The index block, the file the data blocks are in, and the filter block. */
  datatype Raw = Raw(index: Str, file: Str, filter: Str)

  /** How the blocks of a table are laid out: the shape of the index, and size and shape of each data block. */
  datatype Layout = Layout(index: Shape, sizes: seq<nat>, shapes: seq<Shape>)

  /** Data block i is in the file where the index says. */
  ghost predicate BlockStored(t: Table, blocks: seq<seq<Entry>>, raw: Raw, lay: Layout, i: nat)
    requires i < |blocks| == |t.index| == |lay.sizes| == |lay.shapes| == |lay.index.entries|
  {
    var at, size, sh := t.index[i].1, lay.sizes[i], lay.shapes[i];
    && at < TWO_TO_64 && size < TWO_TO_64 && lay.index.entries[i].1 == HandleBytes(at, size)
    && at + size <= |raw.file| && IsBlock(raw.file[at..at + size], sh) && C.Fits(sh)
    && HasKeys(KeysOf(blocks[i]), sh) && forall j | 0 <= j < |blocks[i]| :: sh.entries[j].1 == blocks[i][j].1
  }

  /** The bytes are those of the table. */
  ghost predicate IsRaw(t: Table, blocks: seq<seq<Entry>>, raw: Raw, lay: Layout) {
    && |blocks| == |t.index| == |lay.sizes| == |lay.shapes| == |lay.index.entries|
    && IsBlock(raw.index, lay.index) && C.Fits(lay.index) && HasKeys(Keys(t.index), lay.index)
    && (forall i | 0 <= i < |blocks| :: BlockStored(t, blocks, raw, lay, i))
    && raw.filter == t.filter
  }

  lemma SepsAscend(blocks: seq<seq<Entry>>, seps: seq<TKey>)
    requires BlocksOk(blocks) && SepsOk(blocks, seps)
    ensures KeysAscend(seps)
  {
    forall i | 0 <= i < |seps| - 1
      ensures KeyLess(seps[i], seps[i + 1])
    {
      assert BlockOk(blocks, i) && BlockOk(blocks, i + 1) && SepOk(blocks, seps, i) && SepOk(blocks, seps, i + 1);
      var next := blocks[i + 1];
      SeparatorInRange(seps[i], Last(blocks[i]), next[0].0);
      WithinBlock(next, 0, |next| - 1);
      KeyLessOrder(seps[i], next[0].0, Last(next));
      SepNotBefore(blocks, seps, i + 1);
      KeyLessOrder(seps[i], Last(next), seps[i + 1]);
    }
  }

  lemma SepNotBefore(blocks: seq<seq<Entry>>, seps: seq<TKey>, i: nat)
    requires SepsOk(blocks, seps) && i < |blocks|
    ensures blocks[i] != [] && (seps[i] == Last(blocks[i]) || KeyLess(Last(blocks[i]), seps[i]))
  {
    assert SepOk(blocks, seps, i);
  }

  lemma BlockAscends(blocks: seq<seq<Entry>>, i: nat)
    requires BlocksOk(blocks) && i < |blocks|
    ensures KeysAscend(KeysOf(blocks[i]))
  {
    assert BlockOk(blocks, i);
    var b := blocks[i];
    forall j | 0 <= j < |b| - 1
      ensures KeyLess(KeysOf(b)[j], KeysOf(b)[j + 1])
    {
      assert InOrder(b, j);
    }
  }

  /** The first entry at or after the target, as a seek in its block finds it. */
  lemma SoughtEntry(blocks: seq<seq<Entry>>, target: TKey, b: nat, j: nat, c: nat)
    requires IsFirst(blocks, target, b, j) && Sought(KeysOf(blocks[b]), target, c)
    ensures c == j
  {
    var keys := KeysOf(blocks[b]);
    assert keys[j] == blocks[b][j].0 && !KeyLess(keys[j], target);
    assert forall p | 0 <= p < j :: keys[p] == blocks[b][p].0;
  }

  /** What a lookup is about: a table, its bytes, and the first entry at or after the target with its user key. */
  datatype Aim = Aim(table: Table, blocks: seq<seq<Entry>>, raw: Raw, lay: Layout, target: TKey, b: nat, j: nat)

  ghost predicate Sound(g: Aim) {
    && BlocksOk(g.blocks) && SepsOk(g.blocks, Keys(g.table.index)) && IsRaw(g.table, g.blocks, g.raw, g.lay)
    && g.target.tag < TWO_TO_64 && FirstHasUserKey(g.blocks, g.target, g.b, g.j)
  }

  /** The index seek and the handle it yields. */
  method SeekIndex(raw: Raw, key: Str, ghost g: Aim) returns (r: Option<(nat, nat)>)
    ensures Sound(g) && raw == g.raw && key == EncodeKey(g.target) ==>
              r == Some((g.table.index[g.b].1, g.lay.sizes[g.b]))
  {
    ghost var good := Sound(g) && raw == g.raw && key == EncodeKey(g.target);
    ghost var seps := Keys(g.table.index);
    if good {
      SepsAscend(g.blocks, seps);
    }
    var found; ghost var c;
    found, c := FindKey(raw.index, key, g.target, seps, g.lay.index);
    ghost var at, size := 0, 0;
    if good {
      SoughtIndex(g.blocks, seps, g.target, g.b, g.j, c);
      assert BlockStored(g.table, g.blocks, g.raw, g.lay, g.b);
      at, size := g.table.index[g.b].1, g.lay.sizes[g.b];
    }
    if found.None? {
      return None;
    }
    r := DecodeHandle(found.value.1, at, size);
  }

  /** The handle is that of the aim's block. */
  ghost predicate IsHandle(g: Aim, at: nat, size: nat) {
    g.b < |g.table.index| && g.b < |g.lay.sizes| && at == g.table.index[g.b].1 && size == g.lay.sizes[g.b]
  }

  /** The seek in the data block. */
  method SeekBlock(raw: Raw, key: Str, at: nat, size: nat, ghost g: Aim) returns (r: Option<Pair>)
    ensures Sound(g) && raw == g.raw && key == EncodeKey(g.target) && IsHandle(g, at, size) ==> r == Some(Wanted(g))
  {
    ghost var good := Sound(g) && raw == g.raw && key == EncodeKey(g.target) && IsHandle(g, at, size);
    ghost var keys, sh := [], g.lay.index;
    if good {
      assert BlockStored(g.table, g.blocks, g.raw, g.lay, g.b);
      BlockAscends(g.blocks, g.b);
      keys, sh := KeysOf(g.blocks[g.b]), g.lay.shapes[g.b];
    }
    if at + size > |raw.file| {
      return None;
    }
    ghost var c;
    r, c := FindKey(raw.file[at..at + size], key, g.target, keys, sh);
    if good {
      SoughtEntry(g.blocks, g.target, g.b, g.j, c);
    }
  }

  /** The bytes of the entry a lookup is to find. */
  ghost function Wanted(g: Aim): Pair {
    if g.b < |g.blocks| && g.j < |g.blocks[g.b]| then (EncodeKey(g.blocks[g.b][g.j].0),
                                                       g.blocks[g.b][g.j].1) else ([], [])
  }

  /** The filter block of the table was made by a Bloom policy. */
  ghost predicate IsFiltered(g: Aim, hash: Str -> nat, bitsPerKey: nat, k: nat, groups: seq<seq<Str>>,
                             offsets: seq<nat>)
    requires k <= 30
  {
    Sound(g) && TableOk(g.table, g.blocks, F.BloomCreate(hash, bitsPerKey, k), groups, offsets)
  }

  /** Such a filter lets every key of a block pass at the block's offset. */
  lemma FilterPasses(g: Aim, hash: Str -> nat, bitsPerKey: nat, k: nat, groups: seq<seq<Str>>, offsets: seq<nat>)
    requires k <= 30 && IsFiltered(g, hash, bitsPerKey, k, groups, offsets)
    ensures var at := g.table.index[g.b].1;
            at / F.BASE < |groups| &&
            F.BloomMay(hash)(g.target.user, F.Filters(F.BloomCreate(hash, bitsPerKey, k), groups)[at / F.BASE])
  {
    assert Stored(g.table, g.blocks, groups, g.b) && g.blocks[g.b][g.j] in g.blocks[g.b];
    F.BloomNeverRejects(hash, bitsPerKey, k);
    var at := g.table.index[g.b].1;
    F.AddedKeysMatch(F.BloomCreate(hash, bitsPerKey, k), F.BloomMay(hash), groups, F.Added(at, g.target.user));
  }

  /**
   Table::InternalGet on the bytes of a table with a Bloom filter: whenever the first entry at or
   after the target has the target's user key, its bytes are what the lookup returns.
   */
  method InternalGet(raw: Raw, hash: Str -> nat, useFilter: bool, target: TKey, ghost g: Aim, ghost bitsPerKey: nat,
                     ghost k: nat, ghost groups: seq<seq<Str>>, ghost offsets: seq<nat>) returns (r: Option<Pair>)
    requires k <= 30
    ensures IsFiltered(g, hash, bitsPerKey, k, groups, offsets) && raw == g.raw && target == g.target ==>
              r == Some(Wanted(g))
  {
    ghost var good := IsFiltered(g, hash, bitsPerKey, k, groups, offsets) && raw == g.raw && target == g.target;
    var tag := EncodeFixed(target.tag, 8);
    var key := target.user + tag;
    var handle := SeekIndex(raw, key, g);
    if handle.None? {
      return None;
    }
    var (at, size) := handle.value;
    var mayMatch := true;
    if good {
      FilterPasses(g, hash, bitsPerKey, k, groups, offsets);
    }
    if useFilter {
      mayMatch := F.KeyMayMatch(F.BloomMay(hash), raw.filter, at, target.user,
                                F.Filters(F.BloomCreate(hash, bitsPerKey, k), groups), offsets);
    }
    if !mayMatch {
      return None;
    }
    r := SeekBlock(raw, key, at, size, g);
  }
}
