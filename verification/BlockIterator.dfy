/** Iterating and searching a finished block. */
module BlockIterator {
  import opened Bytes
  import opened Coding
  import opened Blocks

  /** A varint32 that takes five bytes loses the bits beyond 32. */
  function Low32(v: nat): (r: nat)
    ensures v < MAX_LEN ==> r == v
  {
    if v < MAX_LEN then v else v % MAX_LEN
  }

  datatype Head = Head(shared: nat, nonShared: nat, valueLength: nat, size: nat)

  type Decoder = Str -> Option<(nat, nat)>

  /** GetVarint32Ptr: value and length. */
  ghost function Varint32At(s: Str): Option<(nat, nat)> {
    var r := VarintAt(s, 5);
    if r.None? then None else Some((Low32(r.value.0), r.value.1))
  }

  /** The three lengths at the start of s, if the entry they announce fits. */
  ghost function HeadAt(dec: Decoder, s: Str): (r: Option<Head>)
    ensures r.Some? ==> 3 <= r.value.size && r.value.size + r.value.nonShared + r.value.valueLength <= |s|
  {
    var a := dec(s);
    if a.None? || a.value.1 > |s| then None
    else
      var b := dec(s[a.value.1..]);
      if b.None? || a.value.1 + b.value.1 > |s| then None
      else
        var c := dec(s[a.value.1 + b.value.1..]);
        if c.None? then None
        else
          var h := Head(a.value.0, b.value.0, c.value.0, a.value.1 + b.value.1 + c.value.1);
          if h.size < 3 || h.size + h.nonShared + h.valueLength > |s| then None else Some(h)
  }

  /** Three lengths below 128 take one byte each. */
  lemma ShortHead(s: Str)
    requires |s| >= 3 && s[0] < 128 && s[1] < 128 && s[2] < 128
    ensures HeadAt(Varint32At, s) == if 3 + (s[1] as int) + (s[2] as int) > |s| then None else Some(Head(s[0], s[1],
              s[2], 3))
  {
    assert s[1..][0] == s[1] && s[2..][0] == s[2];
    assert Varint32At(s) == Some((s[0], 1)) && Varint32At(s[1..]) == Some((s[1], 1)) &&
        Varint32At(s[2..]) == Some((s[2], 1));
  }

  method GetVarint32(s: Str) returns (r: Option<(nat, nat)>)
    ensures r == Varint32At(s)
    ensures r.Some? ==> 0 < r.value.1 <= |s|
  {
    var v := GetVarint(s, 5);
    return if v.None? then None else Some((Low32(v.value.0), v.value.1));
  }

  method DecodeEntry(s: Str) returns (r: Option<Head>)
    ensures r == HeadAt(Varint32At, s)
  {
    if |s| < 3 {
      ghost var a := Varint32At(s);
      return None;
    }
    if s[0] < 128 && s[1] < 128 && s[2] < 128 {
      ShortHead(s);
      return if 3 + (s[1] as int) + (s[2] as int) > |s| then None else Some(Head(s[0], s[1], s[2], 3));
    }
    var a := GetVarint32(s);
    if a.None? {
      return None;
    }
    var b := GetVarint32(s[a.value.1..]);
    if b.None? {
      return None;
    }
    var c := GetVarint32(s[a.value.1 + b.value.1..]);
    if c.None? {
      return None;
    }
    var h := Head(a.value.0, b.value.0, c.value.0, a.value.1 + b.value.1 + c.value.1);
    return if h.size + h.nonShared + h.valueLength > |s| then None else Some(h);
  }

  /** The bytes a decode to x, whatever follows. */
  ghost predicate Codes(dec: Decoder, a: Str, x: nat) {
    a != [] && forall rest: Str :: dec(a + rest) == Some((x, |a|))
  }

  lemma VarintCodes(x: nat)
    requires x < MAX_LEN
    ensures Codes(Varint32At, Varint(x), x)
  {
    FiveBytes();
    forall rest: Str
      ensures Varint32At(Varint(x) + rest) == Some((x, |Varint(x)|))
    {
      VarintRoundTrip(x, 5, rest);
    }
  }

  lemma PartsDecode(dec: Decoder, a: Str, x: nat, b: Str, c: Str, k: Str, v: Str, rest: Str)
    requires Codes(dec, a, x) && Codes(dec, b, |k|) && Codes(dec, c, |v|)
    ensures var e, size := a + b + c + k + v, |a| + |b| + |c|;
            HeadAt(dec, e + rest) == Some(Head(x, |k|, |v|, size)) && e[size..size + |k|] == k && e[size + |k|..] == v
  {
    var s2 := c + (k + v + rest);
    var s1 := b + s2;
    var s := a + b + c + k + v + rest;
    assert s == a + s1;
    assert s[|a|..] == s1 && s[|a| + |b|..] == s2;
  }

  /** An entry that was written decodes to its parts, whatever follows it. */
  lemma EntryDecodes(n: nat, key: Str, value: Str, rest: Str)
    requires n <= |key| < MAX_LEN && |value| < MAX_LEN
    ensures var e := EntryBytes(n, key, value);
            var size := |e| - (|key| - n) - |value|;
            && HeadAt(Varint32At, e + rest) == Some(Head(n, |key| - n, |value|, size))
            && e[size..size + |key| - n] == key[n..] && e[size + |key| - n..] == value
  {
    VarintCodes(n);
    VarintCodes(|key| - n);
    VarintCodes(|value|);
    PartsDecode(Varint32At, Varint(n), n, Varint(|key| - n), Varint(|value|), key[n..], value, rest);
  }

  // ----- the iterator

  /** A block as the iterator reads it. */
  ghost predicate IterBlock(contents: Str, restartOffset: nat, numRestarts: nat, sh: Shape) {
    && IsBlock(contents, sh)
    && restartOffset == sh.starts[|sh.entries|] < MAX_LEN
    && numRestarts == |sh.owners|
    && forall e | e in sh.entries :: |e.0| < MAX_LEN && |e.1| < MAX_LEN
  }

  lemma TableAt(contents: Str, entries: Str, table: Str, count: Str, at: nat, j: nat)
    requires contents == entries + table + count && at == |entries| + 4 * j && 4 * j + 4 <= |table|
    ensures at + 4 <= |contents| && contents[at..at + 4] == table[4 * j..4 * j + 4]
  {
  }

  lemma RestartPoint(contents: Str, restartOffset: nat, numRestarts: nat, sh: Shape, j: nat, at: nat)
    requires IterBlock(contents, restartOffset, numRestarts, sh) && j < numRestarts && at == restartOffset + 4 * j
    ensures at + 4 <= |contents| && FixedValue(contents[at..at + 4]) == sh.Restart(j)
  {
    assert sh.OwnerOk(j);
    RestartAt(Offsets(sh), j);
    TableAt(contents, contents[..restartOffset], RestartBytes(Offsets(sh)), Fixed(|sh.owners|, 4), at, j);
    if sh.owners[j] < |sh.entries| {
      StartsGrow(sh, contents[..restartOffset], sh.owners[j], |sh.entries|);
    }
    FourBytes();
    FixedRoundTrip(sh.Restart(j), 4);
  }

  /** What decoding an entry from p to end must give. */
  ghost predicate Decoded(contents: Str, h: Head, p: nat, end: nat, n: nat, key: Str, value: Str) {
    var q := p + h.size;
    && h.shared == n <= |key| && h.nonShared == |key| - n && h.valueLength == |value|
    && q + h.nonShared + h.valueLength == end <= |contents|
    && contents[q..q + h.nonShared] == key[n..]
    && contents[q + h.nonShared..end] == value
  }

  lemma SliceOfSlice(data: Str, p: nat, e: Str, i: nat, j: nat)
    requires Here(data, p, p + |e|, e) && i <= j <= |e|
    ensures data[p + i..p + j] == e[i..j]
  {
    var slice := data[p..p + |e|];
    assert |slice[i..j]| == j - i && forall k | i <= k < j :: slice[k] == data[p + k];
  }

  /** Decoding at the start of entry i, up to the end of the entries. */
  lemma EntryAtStart(contents: Str, restartOffset: nat, numRestarts: nat, sh: Shape, i: nat, p: nat)
    requires IterBlock(contents, restartOffset, numRestarts, sh) && i < |sh.entries| && p == sh.starts[i]
    ensures p < restartOffset <= |contents|
    ensures var h := HeadAt(Varint32At, contents[p..restartOffset]);
            h.Some? && Decoded(contents, h.value, p, sh.starts[i + 1], sh.shared[i], sh.entries[i].0, sh.entries[i].1)
  {
    StartsGrow(sh, contents[..restartOffset], i, |sh.entries|);
    assert sh.entries[i] in sh.entries && sh.EntryHere(contents[..restartOffset], i);
    EntryHereDecodes(contents, restartOffset, p, sh.starts[i + 1], sh.shared[i], sh.entries[i].0, sh.entries[i].1);
  }

  lemma EntryHereDecodes(contents: Str, limit: nat, p: nat, end: nat, n: nat, key: Str, value: Str)
    requires p <= limit <= |contents| && n <= |key| < MAX_LEN && |value| < MAX_LEN
    requires Here(contents[..limit], p, end, EntryBytes(n, key, value))
    ensures var h := HeadAt(Varint32At, contents[p..limit]);
            h.Some? && Decoded(contents, h.value, p, end, n, key, value)
  {
    var e, data := EntryBytes(n, key, value), contents[..limit];
    assert contents[p..limit] == e + data[end..];
    EntryDecodes(n, key, value, data[end..]);
    EntryParts(contents, data, p, e, |e| - (|key| - n) - |value|, |key| - n);
  }

  lemma EntryParts(contents: Str, data: Str, p: nat, e: Str, size: nat, n: nat)
    requires data <= contents && Here(data, p, p + |e|, e) && size + n <= |e|
    ensures contents[p + size..p + size + n] == e[size..size + n]
    ensures contents[p + size + n..p + |e|] == e[size + n..]
  {
    SliceOfSlice(data, p, e, size, size + n);
    SliceOfSlice(data, p, e, size + n, |e|);
    assert contents[p + size..p + size + n] == data[p + size..p + size + n];
    assert contents[p + size + n..p + |e|] == data[p + size + n..p + |e|];
  }
}
