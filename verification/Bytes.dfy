/**
 Byte strings under the bytewise comparator, and their embedding into the reals.

 The LSM modules only ever compare user keys, so they take user keys to be reals. `RankOrder`
 shows that nothing is lost: every byte string has a rank, and ranks are ordered exactly as the
 bytewise comparator orders the strings.
 */
module Bytes {
  type Byte = b: int | 0 <= b < 256
  type Str = seq<Byte>

  datatype Option<+T> = None | Some(value: T)

  /** `Slice::compare(a, b) < 0`: the first differing byte decides, then the length. */
  predicate StrLess(a: Str, b: Str) {
    if b == [] then false
    else if a == [] then true
    else if a[0] != b[0] then a[0] < b[0]
    else StrLess(a[1..], b[1..])
  }

  function Rank(s: Str): (r: real)
    ensures 0.0 <= r < 1.0
  {
    if s == [] then 0.0 else (s[0] as real + 1.0 + Rank(s[1..])) / 257.0
  }

  /** The bytewise comparator on strings is the order of their ranks. */
  lemma {:induction false} RankOrder(a: Str, b: Str)
    ensures StrLess(a, b) <==> Rank(a) < Rank(b)
    ensures a == b <==> Rank(a) == Rank(b)
  {
    if a != [] && b != [] {
      RankOrder(a[1..], b[1..]);
      assert a == [a[0]] + a[1..] && b == [b[0]] + b[1..];
    }
  }

  // ----- concatenations

  ghost function Concat(chunks: seq<Str>): Str {
    if chunks == [] then [] else chunks[0] + Concat(chunks[1..])
  }

  lemma {:induction false} ChunkAt(chunks: seq<Str>, before: Str, after: Str, i: nat)
    requires i < |chunks|
    ensures var log, start := before + Concat(chunks) + after, |before| + |Concat(chunks[..i])|;
            start + |chunks[i]| <= |log| && log[start..start + |chunks[i]|] == chunks[i]
  {
    var rest := Concat(chunks[1..]);
    if i == 0 {
      assert before + Concat(chunks) + after == before + (chunks[0] + (rest + after));
    } else {
      ChunkAt(chunks[1..], before + chunks[0], after, i - 1);
      assert before + Concat(chunks) + after == (before + chunks[0]) + rest + after;
      assert chunks[..i][1..] == chunks[1..][..i - 1];
    }
  }

  lemma {:induction false} ConcatAppend(chunks: seq<Str>, last: Str)
    ensures Concat(chunks + [last]) == Concat(chunks) + last
  {
    if chunks == [] {
      assert [last][1..] == [];
    } else {
      ConcatAppend(chunks[1..], last);
      assert (chunks + [last])[1..] == chunks[1..] + [last];
    }
  }

  lemma {:induction false} ConcatMonotone(chunks: seq<Str>, k: nat)
    requires k <= |chunks|
    ensures |Concat(chunks[..k])| <= |Concat(chunks)|
  {
    if k > 0 {
      ConcatMonotone(chunks[1..], k - 1);
      assert chunks[..k][1..] == chunks[1..][..k - 1];
    }
  }
}
