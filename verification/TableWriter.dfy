/** Building a table as bytes: the entries, block by block, the filter block and the index. */
module TableWriter {
  import opened Bytes
  import opened Coding
  import opened Separators
  import opened Blocks
  import opened Table
  import opened TableBytes
  import BlockCursor

  /** kBlockTrailerSize: the compression type and a checksum. */
  const TRAILER: nat := 5

  /** The entries of a block with their keys encoded. */
  ghost function PairsOf(b: seq<Entry>): (r: seq<Pair>)
    ensures |r| == |b| && forall i | 0 <= i < |r| :: r[i] == (EncodeKey(b[i].0), b[i].1)
  {
    seq(|b|, i requires 0 <= i < |b| => (EncodeKey(b[i].0), b[i].1))
  }

  method EncodePairs(b: seq<Entry>) returns (pairs: seq<Pair>)
    ensures pairs == PairsOf(b)
  {
    pairs := [];
    for i := 0 to |b|
      invariant pairs == PairsOf(b[..i])
    {
      var tag := EncodeFixed(b[i].0.tag, 8);
      pairs := pairs + [(b[i].0.user + tag, b[i].1)];
    }
    assert b[..|b|] == b;
  }

  /** The entries of the index block: separators, encoded, and the handles of the data blocks. */
  ghost function IndexPairs(index: seq<(TKey, nat)>, sizes: seq<nat>): (r: seq<Pair>)
    requires |index| == |sizes|
    ensures |r| == |index|
    ensures forall i | 0 <= i < |r| :: r[i] == (EncodeKey(index[i].0), HandleBytes(index[i].1, sizes[i]))
  {
    seq(|index|, i requires 0 <= i < |index| => (EncodeKey(index[i].0), HandleBytes(index[i].1, sizes[i])))
  }

  /** BlockHandle::EncodeTo */
  method EncodeHandle(offset: nat, size: nat) returns (s: Str)
    ensures s == HandleBytes(offset, size)
  {
    var first := EncodeVarint(offset);
    var second := EncodeVarint(size);
    s := first + second;
  }

  method EncodeIndex(index: seq<(TKey, nat)>, sizes: seq<nat>) returns (pairs: seq<Pair>)
    requires |index| == |sizes|
    ensures pairs == IndexPairs(index, sizes)
  {
    pairs := [];
    for i := 0 to |index|
      invariant pairs == IndexPairs(index[..i], sizes[..i])
    {
      var tag := EncodeFixed(index[i].0.tag, 8);
      var handle := EncodeHandle(index[i].1, sizes[i]);
      pairs := pairs + [(index[i].0.user + tag, handle)];
    }
    assert index[..|index|] == index && sizes[..|index|] == sizes;
  }

  /** The bytes of the block lie in the file at `at`. */
  ghost predicate BytesAt(file: Str, at: nat, size: nat, b: seq<Entry>, sh: Shape) {
    at + size <= |file| && IsBlock(file[at..at + size], sh) && sh.entries == PairsOf(b)
  }

  /** Data block i of what has been flushed. */
  ghost predicate DataAt(s: State, file: Str, sizes: seq<nat>, shapes: seq<Shape>, i: nat)
    requires |s.at| == |s.all|
  {
    i < |s.all| && i < |sizes| && i < |shapes| && BytesAt(file, s.at[i], sizes[i], s.all[i], shapes[i])
  }

  ghost predicate TagsFit(b: seq<Entry>) {
    forall e | e in b :: e.0.tag < TWO_TO_64
  }

  /** The bytes of the flushed blocks beside the builder's state. */
  ghost predicate RawBuilt(s: State, file: Str, sizes: seq<nat>, shapes: seq<Shape>) {
    && s.Built() && |file| == s.offset && |sizes| == |shapes| == s.Flushed()
    && (forall i | 0 <= i < |sizes| :: DataAt(s, file, sizes, shapes, i))
    && forall i | 0 <= i < |s.all| :: TagsFit(s.all[i])
  }

  lemma BytesStay(file: Str, more: Str, at: nat, size: nat, b: seq<Entry>, sh: Shape)
    requires BytesAt(file, at, size, b, sh)
    ensures BytesAt(file + more, at, size, b, sh)
  {
    assert (file + more)[at..at + size] == file[at..at + size];
  }

  lemma BytesAppended(file: Str, contents: Str, trailer: Str, b: seq<Entry>, sh: Shape)
    requires IsBlock(contents, sh) && sh.entries == PairsOf(b)
    ensures BytesAt(file + contents + trailer, |file|, |contents|, b, sh)
  {
    assert (file + contents + trailer)[|file|..|file| + |contents|] == contents;
  }

  lemma RawFlush(s: State, file: Str, sizes: seq<nat>, shapes: seq<Shape>, contents: Str, trailer: Str, sh: Shape)
    requires RawBuilt(s, file, sizes, shapes) && s.block != []
    requires IsBlock(contents, sh) && sh.entries == PairsOf(s.block) && |trailer| == TRAILER
    ensures RawBuilt(AfterFlush(s, |contents| + TRAILER), file + contents + trailer, sizes + [|contents|],
                     shapes + [sh])
  {
    var t, bytes := AfterFlush(s, |contents| + TRAILER), file + contents + trailer;
    FlushStep(s, |contents| + TRAILER);
    BytesAppended(file, contents, trailer, s.block, sh);
    forall i | 0 <= i < |sizes| + 1
      ensures DataAt(t, bytes, sizes + [|contents|], shapes + [sh], i)
    {
      if i < |sizes| {
        assert DataAt(s, file, sizes, shapes, i);
        BytesStay(file, contents + trailer, s.at[i], sizes[i], s.all[i], shapes[i]);
        assert file + (contents + trailer) == bytes;
      }
    }
  }

  lemma RawFirst(s: State, file: Str, sizes: seq<nat>, shapes: seq<Shape>, e: Entry, index: seq<(TKey, nat)>)
    requires RawBuilt(s, file, sizes, shapes) && s.block == [] && e.0.tag < TWO_TO_64
    requires WithFirst(s, e, index).Built()
    ensures RawBuilt(WithFirst(s, e, index), file, sizes, shapes)
  {
    var t := WithFirst(s, e, index);
    forall i | 0 <= i < |sizes|
      ensures DataAt(t, file, sizes, shapes, i)
    {
      assert DataAt(s, file, sizes, shapes, i);
    }
    forall i | 0 <= i < |t.all|
      ensures TagsFit(t.all[i])
    {
      assert i < |s.all| ==> t.all[i] == s.all[i];
    }
  }

  lemma RawNext(s: State, file: Str, sizes: seq<nat>, shapes: seq<Shape>, e: Entry)
    requires RawBuilt(s, file, sizes, shapes) && s.block != [] && s.all != [] && e.0.tag < TWO_TO_64
    requires WithNext(s, e).Built()
    ensures RawBuilt(WithNext(s, e), file, sizes, shapes)
  {
    var t := WithNext(s, e);
    forall i | 0 <= i < |sizes|
      ensures DataAt(t, file, sizes, shapes, i)
    {
      assert DataAt(s, file, sizes, shapes, i);
    }
    forall i | 0 <= i < |t.all|
      ensures TagsFit(t.all[i])
    {
      assert TagsFit(s.all[i]);
    }
  }

  /** Nothing outgrows its length field. */
  ghost predicate Small(raw: Raw, lay: Layout) {
    && |raw.file| < TWO_TO_64 && FilterBlock.Fits(raw.filter)
    && lay.index.Sizes() && BlockCursor.Fits(lay.index)
    && forall sh | sh in lay.shapes :: sh.Sizes() && BlockCursor.Fits(sh)
  }

  /** WriteBlock and WriteRawBlock without compression: the block's bytes and its trailer. */
  method WriteBlock(crc: Str -> nat, interval: nat, b: seq<Entry>)
      returns (contents: Str, trailer: Str, ghost sh: Shape)
    requires interval >= 1
    ensures IsBlock(contents, sh) && sh.entries == PairsOf(b) && |trailer| == TRAILER
  {
    var pairs := EncodePairs(b);
    contents, sh := BlockCursor.Build(interval, pairs);
    var check := EncodeFixed(crc(contents + [0]), 4);
    trailer := [0] + check;
  }

  class RawBuilder {
    const builder: TableBuilder
    const interval: nat
    var file: Str
    var sizes: seq<nat>
    ghost var shapes: seq<Shape>

    ghost predicate Valid()
      reads this, builder, builder.filter
    {
      interval >= 1 && builder.Valid() && RawBuilt(builder.Abs(), file, sizes, shapes)
    }

    constructor (create: FilterBlock.Create, interval: nat)
      requires interval >= 1
      ensures Valid() && builder.all == [] && builder.filter.create == create
      ensures fresh(builder) && fresh(builder.filter)
    {
      builder := new TableBuilder(create);
      this.interval := interval;
      file, sizes, shapes := [], [], [];
    }

    /** TableBuilder::Flush */
    method Flush(crc: Str -> nat)
      requires Valid()
      modifies this, builder, builder.filter
      ensures Valid() && builder.all == old(builder.all) && builder.at == old(builder.at) && builder.block == []
    {
      if |builder.block| == 0 {
        return;
      }
      ghost var s := builder.Abs();
      var contents, trailer; ghost var sh;
      contents, trailer, sh := WriteBlock(crc, interval, builder.block);
      RawFlush(s, file, sizes, shapes, contents, trailer, sh);
      builder.Flush(|contents| + TRAILER);
      file := file + contents + trailer;
      sizes := sizes + [|contents|];
      shapes := shapes + [sh];
    }

    /** TableBuilder::Add; `full` says whether the block has reached its size. */
    method Add(crc: Str -> nat, key: TKey, value: Str, full: bool)
      requires Valid() && key.tag < TWO_TO_64 && (builder.all != [] ==> KeyLess(builder.lastKey, key))
      modifies this, builder, builder.filter
      ensures Valid()
      ensures builder.all == if old(builder.block) == [] then old(builder.all) + [[(key, value)]]
                             else old(builder.all)[|old(builder.all)| - 1 := old(builder.block) + [(key, value)]]
    {
      ghost var s, e := builder.Abs(), (key, value);
      if |builder.block| == 0 {
        builder.AddFirst(key, value);
        RawFirst(s, file, sizes, shapes, e, builder.index);
      } else {
        builder.AddNext(key, value);
        RawNext(s, file, sizes, shapes, e);
      }
      if full {
        Flush(crc);
      }
    }

    /**
     TableBuilder::Finish: the bytes are those of the table that the entries make, so that whatever
     is proved of lookups in such bytes holds of them.
     */
    method Finish(crc: Str -> nat) returns (raw: Raw, ghost t: Table, ghost lay: Layout)
      requires Valid()
      modifies this, builder, builder.filter
      ensures Small(raw, lay) ==>
                && TableOk(t, old(builder.all), builder.filter.create, builder.filter.groups, builder.filter.offsets)
                && IsRaw(t, old(builder.all), raw, lay)
    {
      Flush(crc);
      ghost var s := builder.Abs();
      var table := builder.Finish(1);
      var pairs := EncodeIndex(table.index, sizes);
      ghost var sh;
      var contents;
      contents, sh := BlockCursor.Build(1, pairs);
      raw, t, lay := Raw(contents, file, table.filter), table, Layout(sh, sizes, shapes);
      if Small(raw, lay) {
        FinishedRaw(s, t, raw, lay);
      }
    }
  }

  /** The keys of a block of encoded pairs. */
  lemma PairsHaveKeys(b: seq<Entry>, sh: Shape)
    requires TagsFit(b) && sh.entries == PairsOf(b)
    ensures HasKeys(KeysOf(b), sh)
  {
    forall i | 0 <= i < |b|
      ensures b[i].0.tag < TWO_TO_64
    {
      assert b[i] in b;
    }
  }

  lemma IndexHasKeys(s: State, index: seq<(TKey, nat)>, sizes: seq<nat>, sh: Shape)
    requires |index| == |s.all| == |sizes| && (forall i | 0 <= i < |index| :: Placed(s.all, s.at, index, i))
    requires (forall i | 0 <= i < |s.all| :: TagsFit(s.all[i])) && sh.entries == IndexPairs(index, sizes)
    ensures HasKeys(Keys(index), sh)
  {
    forall i | 0 <= i < |index|
      ensures index[i].0.tag < TWO_TO_64
    {
      var b := s.all[i];
      assert Placed(s.all, s.at, index, i) && TagsFit(b) && b[|b| - 1] in b;
    }
  }

  lemma FinishedRaw(s: State, t: Table, raw: Raw, lay: Layout)
    requires RawBuilt(s, raw.file, lay.sizes, lay.shapes) && s.Flushed() == |s.all| && raw.filter == t.filter
    requires |t.index| == |s.all| && (forall i | 0 <= i < |t.index| :: Placed(s.all, s.at, t.index, i))
    requires IsBlock(raw.index, lay.index) && lay.index.entries == IndexPairs(t.index, lay.sizes) && Small(raw, lay)
    ensures IsRaw(t, s.all, raw, lay)
  {
    IndexHasKeys(s, t.index, lay.sizes, lay.index);
    forall i | 0 <= i < |s.all|
      ensures BlockStored(t, s.all, raw, lay, i)
    {
      assert Placed(s.all, s.at, t.index, i) && DataAt(s, raw.file, lay.sizes, lay.shapes, i);
      assert lay.shapes[i] in lay.shapes;
      PairsHaveKeys(s.all[i], lay.shapes[i]);
    }
  }

  /**
   From entries to a point lookup, in bytes: what a builder with the Bloom policy has been given is
   found in the bytes it finishes, whenever it is the first entry at or after the target.
   */
  method BuildAndGet(b: RawBuilder, crc: Str -> nat, hash: Str -> nat, bitsPerKey: nat, k: nat, useFilter: bool,
                     target: TKey, ghost i: nat, ghost j: nat)
      returns (r: Option<Pair>, ghost raw: Raw, ghost lay: Layout)
    requires b.Valid() && k <= 30 && b.builder.filter.create == FilterBlock.BloomCreate(hash, bitsPerKey, k)
    requires target.tag < TWO_TO_64
    modifies b, b.builder, b.builder.filter
    ensures var all := old(b.builder.all);
            Small(raw, lay) && FirstHasUserKey(all, target, i, j) ==>
              r == Some((EncodeKey(all[i][j].0), all[i][j].1))
  {
    ghost var all := b.builder.all;
    ghost var t;
    var bytes;
    bytes, t, lay := b.Finish(crc);
    raw := bytes;
    ghost var filter := b.builder.filter;
    r := TableBytes.InternalGet(bytes, hash, useFilter, target, Aim(t, all, raw, lay, target, i, j), bitsPerKey, k,
                                filter.groups, filter.offsets);
  }
}
