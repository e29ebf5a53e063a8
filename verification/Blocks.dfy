/** Prefix-compressed blocks with restart points: the format and the builder. */
module Blocks {
  import opened Bytes
  import opened Coding

  type Pair = (Str, Str)

  /** One entry: lengths, the part of the key not shared with the previous key, the value. */
  ghost function EntryBytes(shared: nat, key: Str, value: Str): (s: Str)
    requires shared <= |key|
    ensures |s| >= 3 + |key| - shared + |value|
  {
    Varint(shared) + Varint(|key| - shared) + Varint(|value|) + key[shared..] + value
  }

  /** The bytes e lie in data from start to end. */
  ghost predicate Here(data: Str, start: nat, end: nat, e: Str) {
    end == start + |e| <= |data| && data[start..end] == e
  }

  lemma HereStays(data: Str, more: Str, start: nat, end: nat, e: Str)
    requires Here(data, start, end, e)
    ensures Here(data + more, start, end, e)
  {
    assert (data + more)[start..end] == data[start..end];
  }

  /** What a block consists of, entry by entry; `owners` are the entries at restart points. */
  datatype Shape = Shape(entries: seq<Pair>, shared: seq<nat>, starts: seq<nat>, owners: seq<nat>) {
    ghost predicate Sizes() {
      |shared| == |entries| && |starts| == |entries| + 1 && starts[0] == 0 && |owners| >= 1 && owners[0] == 0
    }

    /** The prefix entry i shares with its predecessor is really shared. */
    ghost predicate PrefixOk(i: nat)
      requires Sizes() && i < |entries|
    {
      && shared[i] <= |entries[i].0|
      && (shared[i] > 0 ==>
            i > 0 && shared[i] <= |entries[i - 1].0| && entries[i].0[..shared[i]] == entries[i - 1].0[..shared[i]])
    }

    ghost predicate PrefixesOk()
      requires Sizes()
    {
      forall i | 0 <= i < |entries| :: PrefixOk(i)
    }

    /** Restart points share nothing; only an empty block has one without an entry. */
    ghost predicate OwnerOk(j: nat)
      requires Sizes() && j < |owners|
    {
      if owners[j] < |entries| then shared[owners[j]] == 0 else entries == [] && owners == [0]
    }

    ghost predicate OwnerOrder(j: nat)
      requires j + 1 < |owners|
    {
      owners[j] < owners[j + 1]
    }

    ghost predicate OwnersOk()
      requires Sizes()
    {
      && (forall j | 0 <= j < |owners| - 1 :: OwnerOrder(j))
      && (forall j | 0 <= j < |owners| :: OwnerOk(j))
    }

    /** The offset of restart point j. */
    ghost function Restart(j: nat): nat
      requires Sizes() && OwnersOk() && j < |owners|
    {
      assert OwnerOk(j);
      starts[owners[j]]
    }

    ghost predicate EntryHere(data: Str, i: nat)
      requires Sizes() && PrefixesOk() && i < |entries|
    {
      PrefixOk(i) && Here(data, starts[i], starts[i + 1], EntryBytes(shared[i], entries[i].0, entries[i].1))
    }

    /** The entries lie in `data` one after another. */
    ghost predicate LaidOut(data: Str)
      requires Sizes() && PrefixesOk()
    {
      starts[|entries|] <= |data| && forall i | 0 <= i < |entries| :: EntryHere(data, i)
    }

    ghost predicate KeyOrder(ord: Str -> real, i: nat)
      requires i + 1 < |entries|
    {
      ord(entries[i].0) < ord(entries[i + 1].0)
    }

    /** The keys increase strictly; ord stands for the comparator's order. */
    ghost predicate KeysIncrease(ord: Str -> real) {
      forall i | 0 <= i < |entries| - 1 :: KeyOrder(ord, i)
    }

    ghost predicate Describes(data: Str) {
      Sizes() && PrefixesOk() && OwnersOk() && LaidOut(data)
    }
  }

  lemma {:induction false} StartsGrow(sh: Shape, data: Str, i: nat, j: nat)
    requires sh.Describes(data) && i < j <= |sh.entries|
    ensures sh.starts[i] < sh.starts[j] <= sh.starts[|sh.entries|]
    decreases |sh.entries| - i
  {
    assert sh.EntryHere(data, i);
    if i + 1 < j {
      StartsGrow(sh, data, i + 1, j);
    } else if j < |sh.entries| {
      StartsGrow(sh, data, j, |sh.entries|);
    }
  }

  lemma {:induction false} KeysGrow(sh: Shape, ord: Str -> real, i: nat, j: nat)
    requires sh.KeysIncrease(ord) && i <= j < |sh.entries|
    ensures ord(sh.entries[i].0) <= ord(sh.entries[j].0)
    ensures i < j ==> ord(sh.entries[i].0) < ord(sh.entries[j].0)
    decreases j
  {
    if i < j {
      assert sh.KeyOrder(ord, j - 1);
      KeysGrow(sh, ord, i, j - 1);
    }
  }

  ghost function RestartBytes(restarts: seq<nat>): (s: Str)
    ensures |s| == 4 * |restarts|
  {
    if restarts == [] then [] else RestartBytes(restarts[..|restarts| - 1]) + Fixed(restarts[|restarts| - 1], 4)
  }

  lemma {:induction false} RestartAt(restarts: seq<nat>, j: nat)
    requires j < |restarts|
    ensures RestartBytes(restarts)[4 * j..4 * j + 4] == Fixed(restarts[j], 4)
  {
    var n := |restarts| - 1;
    if j < n {
      RestartAt(restarts[..n], j);
      assert RestartBytes(restarts)[4 * j..4 * j + 4] == RestartBytes(restarts[..n])[4 * j..4 * j + 4];
    }
  }

  /** The restart offsets of a shape. */
  ghost function Offsets(sh: Shape): (r: seq<nat>)
    requires sh.Sizes() && sh.OwnersOk()
    ensures |r| == |sh.owners|
  {
    seq(|sh.owners|, j requires 0 <= j < |sh.owners| => sh.Restart(j))
  }

  /** A finished block: entries, restart offsets, number of restarts. */
  ghost predicate IsBlock(contents: Str, sh: Shape) {
    sh.Sizes() && sh.PrefixesOk() && sh.OwnersOk() &&
    var end := sh.starts[|sh.entries|];
    && end <= |contents|
    && sh.LaidOut(contents[..end])
    && contents == contents[..end] + RestartBytes(Offsets(sh)) + Fixed(|sh.owners|, 4)
  }

  ghost function Extended(sh: Shape, n: nat, key: Str, value: Str, restart: bool): Shape
    requires sh.Sizes() && n <= |key|
  {
    var end := sh.starts[|sh.entries|];
    Shape(sh.entries + [(key, value)], sh.shared + [n], sh.starts + [end + |EntryBytes(n, key, value)|],
          if restart then sh.owners + [|sh.entries|] else sh.owners)
  }

  ghost predicate CanShare(sh: Shape, n: nat, key: Str)
    requires sh.Sizes()
  {
    && n <= |key|
    && (n > 0 ==>
          sh.entries != [] && var last := sh.entries[|sh.entries| - 1].0; n <= |last| && key[..n] == last[..n])
  }

  lemma ExtendedPrefixes(sh: Shape, n: nat, key: Str, value: Str, restart: bool)
    requires sh.Sizes() && sh.PrefixesOk() && CanShare(sh, n, key)
    ensures Extended(sh, n, key, value, restart).Sizes() && Extended(sh, n, key, value, restart).PrefixesOk()
  {
    var t := Extended(sh, n, key, value, restart);
    forall i | 0 <= i < |t.entries|
      ensures t.PrefixOk(i)
    {
      assert i < |sh.entries| ==> sh.PrefixOk(i);
    }
  }

  lemma ExtendedOwners(sh: Shape, n: nat, key: Str, value: Str, restart: bool)
    requires sh.Sizes() && sh.OwnersOk() && n <= |key|
    requires restart ==> sh.entries != [] && n == 0
    requires sh.entries == [] ==> n == 0
    ensures var t := Extended(sh, n, key, value, restart);
            t.Sizes() && t.OwnersOk() &&
            Offsets(t) == Offsets(sh) + if restart then [sh.starts[|sh.entries|]] else []
  {
    var t := Extended(sh, n, key, value, restart);
    forall j | 0 <= j < |t.owners|
      ensures t.OwnerOk(j) && (j < |sh.owners| ==> t.starts[t.owners[j]] == sh.starts[sh.owners[j]])
    {
      assert j < |sh.owners| ==> sh.OwnerOk(j);
    }
    forall j | 0 <= j < |t.owners| - 1
      ensures t.OwnerOrder(j)
    {
      assert sh.OwnerOk(j);
      assert j < |sh.owners| - 1 ==> sh.OwnerOrder(j);
    }
  }

  lemma ExtendedLaidOut(sh: Shape, data: Str, n: nat, key: Str, value: Str, restart: bool)
    requires sh.Describes(data) && sh.starts[|sh.entries|] == |data| && CanShare(sh, n, key)
    ensures var t, e := Extended(sh, n, key, value, restart), EntryBytes(n, key, value);
            t.Sizes() && t.PrefixesOk() && t.LaidOut(data + e) && t.starts[|t.entries|] == |data + e|
  {
    var t, e := Extended(sh, n, key, value, restart), EntryBytes(n, key, value);
    ExtendedPrefixes(sh, n, key, value, restart);
    forall i | 0 <= i < |t.entries|
      ensures t.EntryHere(data + e, i)
    {
      assert t.PrefixOk(i);
      if i < |sh.entries| {
        assert sh.EntryHere(data, i);
        HereStays(data, e, sh.starts[i], sh.starts[i + 1], EntryBytes(sh.shared[i], sh.entries[i].0, sh.entries[i].1));
      }
    }
  }

  class BlockBuilder {
    const interval: nat
    var buffer: Str
    var restarts: seq<nat>
    var counter: nat
    var lastKey: Str
    ghost var shape: Shape

    ghost predicate Valid()
      reads this
    {
      && interval >= 1
      && counter <= interval
      && shape.Describes(buffer)
      && shape.starts[|shape.entries|] == |buffer|
      && restarts == Offsets(shape)
      && (shape.entries != [] ==> lastKey == shape.entries[|shape.entries| - 1].0)
      && (shape.entries == [] ==> lastKey == [] && counter == 0)
    }

    constructor (interval: nat)
      requires interval >= 1
      ensures Valid() && shape.entries == []
    {
      this.interval := interval;
      buffer, restarts, counter, lastKey := [], [0], 0, [];
      shape := Shape([], [], [0], [0]);
    }

    method SharedWithLast(key: Str) returns (shared: nat)
      ensures shared <= |key| && shared <= |lastKey| && key[..shared] == lastKey[..shared]
      ensures shared < |key| && shared < |lastKey| ==> key[shared] != lastKey[shared]
    {
      shared := 0;
      var n := if |lastKey| < |key| then |lastKey| else |key|;
      while shared < n && lastKey[shared] == key[shared]
        invariant shared <= n && key[..shared] == lastKey[..shared]
      {
        assert key[..shared + 1] == key[..shared] + [key[shared]];
        assert lastKey[..shared + 1] == lastKey[..shared] + [lastKey[shared]];
        shared := shared + 1;
      }
    }

    /** BlockBuilder::Add */
    method Add(key: Str, value: Str)
      requires Valid()
      modifies this
      ensures Valid() && shape.entries == old(shape.entries) + [(key, value)]
    {
      var shared, restart := 0, counter >= interval;
      if !restart {
        shared := SharedWithLast(key);
      } else {
        restarts := restarts + [|buffer|];
        counter := 0;
      }
      assert CanShare(shape, shared, key);
      ExtendedLaidOut(shape, buffer, shared, key, value, restart);
      ExtendedOwners(shape, shared, key, value, restart);
      var e := EncodeEntry(shared, key, value);
      buffer := buffer + e;
      shape := Extended(shape, shared, key, value, restart);
      lastKey := lastKey[..shared] + key[shared..];
      assert lastKey == key;
      counter := counter + 1;
    }

    /** BlockBuilder::Finish */
    method Finish() returns (contents: Str)
      requires Valid()
      ensures IsBlock(contents, shape)
    {
      var table := EncodeRestarts(restarts);
      var count := EncodeFixed(|restarts|, 4);
      contents := buffer + table + count;
      assert contents[..|buffer|] == buffer;
    }
  }

  method EncodeEntry(shared: nat, key: Str, value: Str) returns (e: Str)
    requires shared <= |key|
    ensures e == EntryBytes(shared, key, value)
  {
    var a := EncodeVarint(shared);
    var b := EncodeVarint(|key| - shared);
    var c := EncodeVarint(|value|);
    e := a + b + c + key[shared..] + value;
  }

  method EncodeRestarts(restarts: seq<nat>) returns (table: Str)
    ensures table == RestartBytes(restarts)
  {
    table := [];
    for j := 0 to |restarts|
      invariant table == RestartBytes(restarts[..j])
    {
      var r := EncodeFixed(restarts[j], 4);
      assert restarts[..j + 1][..j] == restarts[..j];
      table := table + r;
    }
    assert restarts[..|restarts|] == restarts;
  }
}
