/** The Bloom filter policy: a filter never rejects a key it was built from. */
module Bloom {
  import opened Bytes

  const WORD: nat := 0x1_0000_0000

  // ----- bits of a byte

  /** b & (1 << i) is not zero. */
  predicate HasBit(b: nat, i: nat) {
    if i == 0 then b % 2 == 1 else HasBit(b / 2, i - 1)
  }

  /** b | (1 << i) */
  function WithBit(b: nat, i: nat): nat {
    if i == 0 then (if b % 2 == 1 then b else b + 1) else 2 * WithBit(b / 2, i - 1) + b % 2
  }

  lemma {:induction false} WithBitSets(b: nat, i: nat, j: nat)
    ensures HasBit(WithBit(b, i), j) <==> j == i || HasBit(b, j)
  {
    if i > 0 {
      assert WithBit(b, i) / 2 == WithBit(b / 2, i - 1) && WithBit(b, i) % 2 == b % 2;
      if j > 0 {
        WithBitSets(b / 2, i - 1, j - 1);
      }
    } else if j > 0 {
      assert WithBit(b, 0) / 2 == b / 2;
    }
  }

  lemma {:induction false} NoBits(i: nat)
    ensures !HasBit(0, i)
  {
    if i > 0 {
      NoBits(i - 1);
    }
  }

  function Pow2(n: nat): nat {
    if n == 0 then 1 else 2 * Pow2(n - 1)
  }

  lemma {:induction false} WithBitInRange(b: nat, i: nat, n: nat)
    requires i < n && b < Pow2(n)
    ensures WithBit(b, i) < Pow2(n)
  {
    assert Pow2(n) == 2 * Pow2(n - 1) && b / 2 < Pow2(n - 1);
    if i > 0 {
      WithBitInRange(b / 2, i - 1, n - 1);
      assert WithBit(b, i) == 2 * WithBit(b / 2, i - 1) + b % 2;
    }
  }

  function SetInByte(b: Byte, i: nat): Byte
    requires i < 8
  {
    WithBitInRange(b, i, 8);
    assert Pow2(8) == 256 by {
      assert Pow2(4) == 16;
    }
    WithBit(b, i)
  }

  // ----- probes

  /** Rotation right by 17 bits. */
  function Delta(h: nat): nat {
    h / 0x2_0000 + h % 0x2_0000 * 0x8000
  }

  function Step(h: nat, delta: nat): nat {
    (h + delta) % WORD
  }

  /** The hash after j rounds of double hashing. */
  function Hashed(h: nat, delta: nat, j: nat): nat {
    if j == 0 then h else Step(Hashed(h, delta, j - 1), delta)
  }

  function BitPos(h: nat, bytes: nat): (p: nat)
    requires bytes > 0
    ensures p / 8 < bytes && p % 8 < 8
  {
    h % (bytes * 8)
  }

  predicate BitSet(bits: Str, p: nat) {
    p / 8 < |bits| && HasBit(bits[p / 8], p % 8)
  }

  predicate ProbeSet(bits: Str, h: nat, delta: nat, j: nat) {
    |bits| > 0 && BitSet(bits, BitPos(Hashed(h, delta, j), |bits|))
  }

  /** The first k probes of a hash all hit set bits. */
  predicate AllSet(bits: Str, h: nat, k: nat) {
    forall j: nat | j < k :: ProbeSet(bits, h, Delta(h), j)
  }

  /** BloomFilterPolicy::KeyMayMatch as a statement about the filter. */
  predicate MayMatch(hash: Str -> nat, key: Str, filter: Str) {
    |filter| >= 2 &&
    (filter[|filter| - 1] > 30 || AllSet(filter[..|filter| - 1], hash(key) % WORD, filter[|filter| - 1]))
  }

  method KeyMayMatch(hash: Str -> nat, key: Str, filter: Str) returns (r: bool)
    ensures r == MayMatch(hash, key, filter)
  {
    if |filter| < 2 {
      return false;
    }
    var bytes, k := |filter| - 1, filter[|filter| - 1];
    if k > 30 {
      return true;
    }
    ghost var body := filter[..bytes];
    var h0 := hash(key) % WORD;
    var h, delta := h0, Delta(h0);
    for j := 0 to k
      invariant h == Hashed(h0, delta, j) && AllSet(body, h0, j)
    {
      var p := BitPos(h, bytes);
      if !HasBit(filter[p / 8], p % 8) {
        assert !ProbeSet(body, h0, delta, j);
        return false;
      }
      h := Step(h, delta);
    }
    return true;
  }

  /** The bit is one of the first k probes of a hash. */
  ghost predicate Probed(h: nat, k: nat, bytes: nat, p: nat) {
    bytes > 0 && exists j: nat | j < k :: p == BitPos(Hashed(h, Delta(h), j), bytes)
  }

  /** The bits that are set are those set before and the ones the hash probes. */
  ghost predicate Marked(was: Str, now: Str, h: nat, k: nat) {
    |now| == |was| && forall p: nat :: BitSet(now, p) <==> BitSet(was, p) || Probed(h, k, |was|, p)
  }

  function WithBitAt(bits: Str, p: nat): (r: Str)
    requires p / 8 < |bits|
    ensures |r| == |bits|
  {
    bits[p / 8 := SetInByte(bits[p / 8], p % 8)]
  }

  lemma WithBitAtSets(bits: Str, p: nat, q: nat)
    requires p / 8 < |bits|
    ensures BitSet(WithBitAt(bits, p), q) <==> BitSet(bits, q) || q == p
  {
    WithBitSets(bits[p / 8], p % 8, q % 8);
  }

  /** The bits once the first k probes of a hash are set. */
  function WithKey(bits: Str, h: nat, k: nat): (r: Str)
    requires |bits| > 0
    ensures |r| == |bits|
  {
    if k == 0 then bits else WithBitAt(WithKey(bits, h, k - 1), BitPos(Hashed(h, Delta(h), k - 1), |bits|))
  }

  lemma {:induction false} WithKeyMarks(bits: Str, h: nat, k: nat)
    requires |bits| > 0
    ensures Marked(bits, WithKey(bits, h, k), h, k)
  {
    if k > 0 {
      WithKeyMarks(bits, h, k - 1);
      var was, p := WithKey(bits, h, k - 1), BitPos(Hashed(h, Delta(h), k - 1), |bits|);
      forall q: nat
        ensures BitSet(WithKey(bits, h, k), q) <==> BitSet(bits, q) || Probed(h, k, |bits|, q)
      {
        WithBitAtSets(was, p, q);
        assert BitSet(was, q) <==> BitSet(bits, q) || Probed(h, k - 1, |bits|, q);
        OneMoreProbe(h, k - 1, |bits|, q);
      }
    }
  }

  /** The bits of a filter for the keys. */
  function Bits(hash: Str -> nat, keys: seq<Str>, k: nat, bytes: nat): (r: Str)
    requires bytes > 0
    ensures |r| == bytes
  {
    if keys == [] then seq(bytes, _ => 0)
    else WithKey(Bits(hash, keys[..|keys| - 1], k, bytes), hash(keys[|keys| - 1]) % WORD, k)
  }

  /** The length of a filter in bytes, the number of probes not counted. */
  function FilterBytes(n: nat, bitsPerKey: nat): (bytes: nat)
    ensures bytes >= 8 && 8 * bytes >= n * bitsPerKey
  {
    ((if n * bitsPerKey < 64 then 64 else n * bitsPerKey) + 7) / 8
  }

  /** The filter a Bloom policy makes of the keys. */
  function Filter(hash: Str -> nat, keys: seq<Str>, bitsPerKey: nat, k: nat): (r: Str)
    requires k <= 30
    ensures |r| == FilterBytes(|keys|, bitsPerKey) + 1
  {
    Bits(hash, keys, k, FilterBytes(|keys|, bitsPerKey)) + [k]
  }

  method SetBit(bits: array<Byte>, p: nat)
    requires p / 8 < bits.Length
    modifies bits
    ensures bits[..] == WithBitAt(old(bits[..]), p)
  {
    bits[p / 8] := SetInByte(bits[p / 8], p % 8);
  }

  /** The inner loop of CreateFilter: all probes of one key. */
  method AddKey(bits: array<Byte>, h0: nat, k: nat)
    requires bits.Length > 0
    modifies bits
    ensures bits[..] == WithKey(old(bits[..]), h0, k)
  {
    var h, delta := h0, Delta(h0);
    for j := 0 to k
      invariant h == Hashed(h0, delta, j) && bits[..] == WithKey(old(bits[..]), h0, j)
    {
      SetBit(bits, BitPos(h, bits.Length));
      h := Step(h, delta);
    }
  }

  lemma OneMoreProbe(h: nat, j: nat, bytes: nat, q: nat)
    requires bytes > 0
    ensures Probed(h, j + 1, bytes, q) <==> Probed(h, j, bytes, q) || q == BitPos(Hashed(h, Delta(h), j), bytes)
  {
  }

  /** A bit of the filter is set exactly if one of the keys probes it. */
  ghost predicate Exact(hash: Str -> nat, keys: seq<Str>, k: nat, bits: Str) {
    forall p: nat :: BitSet(bits, p) <==> ProbedBySome(hash, keys, k, |bits|, p)
  }

  ghost predicate ProbedBySome(hash: Str -> nat, keys: seq<Str>, k: nat, bytes: nat, p: nat) {
    exists i | 0 <= i < |keys| :: Probed(hash(keys[i]) % WORD, k, bytes, p)
  }

  lemma ExactNext(hash: Str -> nat, keys: seq<Str>, n: nat, k: nat, was: Str, now: Str)
    requires n < |keys| && Exact(hash, keys[..n], k, was) && Marked(was, now, hash(keys[n]) % WORD, k)
    ensures Exact(hash, keys[..n + 1], k, now)
  {
    forall p: nat
      ensures BitSet(now, p) <==> ProbedBySome(hash, keys[..n + 1], k, |now|, p)
    {
      assert keys[..n + 1][n] == keys[n] && forall i | 0 <= i < n :: keys[..n + 1][i] == keys[..n][i];
      assert BitSet(was, p) <==> ProbedBySome(hash, keys[..n], k, |was|, p);
    }
  }

  /** No key of the filter is rejected. */
  lemma ExactMatches(hash: Str -> nat, keys: seq<Str>, k: nat, bits: Str, key: Str)
    requires Exact(hash, keys, k, bits) && bits != [] && key in keys
    ensures AllSet(bits, hash(key) % WORD, k)
  {
    var i :| 0 <= i < |keys| && keys[i] == key;
    var h := hash(key) % WORD;
    forall j: nat | j < k
      ensures ProbeSet(bits, h, Delta(h), j)
    {
      var p := BitPos(Hashed(h, Delta(h), j), |bits|);
      assert Probed(hash(keys[i]) % WORD, k, |bits|, p);
    }
  }

  lemma {:induction false} BitsExact(hash: Str -> nat, keys: seq<Str>, k: nat, bytes: nat)
    requires bytes > 0
    ensures Exact(hash, keys, k, Bits(hash, keys, k, bytes))
  {
    if keys == [] {
      forall p: nat
        ensures !BitSet(Bits(hash, keys, k, bytes), p)
      {
        NoBits(p % 8);
      }
    } else {
      var n := |keys| - 1;
      var was := Bits(hash, keys[..n], k, bytes);
      BitsExact(hash, keys[..n], k, bytes);
      WithKeyMarks(was, hash(keys[n]) % WORD, k);
      assert keys[..n + 1] == keys;
      ExactNext(hash, keys, n, k, was, Bits(hash, keys, k, bytes));
    }
  }

  /** A filter rejects none of its keys, and no bit of it is set in vain. */
  lemma FilterExact(hash: Str -> nat, keys: seq<Str>, bitsPerKey: nat, k: nat)
    requires k <= 30
    ensures var filter := Filter(hash, keys, bitsPerKey, k);
            && filter[|filter| - 1] == k && Exact(hash, keys, k, filter[..|filter| - 1])
            && forall key | key in keys :: MayMatch(hash, key, filter)
  {
    var filter, bytes := Filter(hash, keys, bitsPerKey, k), FilterBytes(|keys|, bitsPerKey);
    BitsExact(hash, keys, k, bytes);
    assert filter[..bytes] == Bits(hash, keys, k, bytes);
    forall key | key in keys
      ensures MayMatch(hash, key, filter)
    {
      ExactMatches(hash, keys, k, filter[..bytes], key);
    }
  }

  /** BloomFilterPolicy::CreateFilter: every key it is given matches, and no bit is set in vain. */
  method CreateFilter(hash: Str -> nat, keys: seq<Str>, bitsPerKey: nat, k: nat) returns (filter: Str)
    requires 1 <= k <= 30
    ensures filter == Filter(hash, keys, bitsPerKey, k)
    ensures forall key | key in keys :: MayMatch(hash, key, filter)
    ensures |filter| >= 9 && 8 * (|filter| - 1) >= |keys| * bitsPerKey
    ensures filter[|filter| - 1] == k && Exact(hash, keys, k, filter[..|filter| - 1])
  {
    var bits := |keys| * bitsPerKey;
    if bits < 64 {
      bits := 64;
    }
    var bytes := (bits + 7) / 8;
    var table := new Byte[bytes](_ => 0);
    for i := 0 to |keys|
      invariant table[..] == Bits(hash, keys[..i], k, bytes)
    {
      AddKey(table, hash(keys[i]) % WORD, k);
      assert keys[..i + 1][..i] == keys[..i];
    }
    filter := table[..] + [k];
    assert keys[..|keys|] == keys;
    FilterExact(hash, keys, bitsPerKey, k);
  }
}
