/** Fixed-width and variable-width integers and length-prefixed strings, as every file format uses them. */
module Coding {
  import opened Bytes

  ghost function Pow(b: nat, n: nat): nat {
    if n == 0 then 1 else b * Pow(b, n - 1)
  }

  // ----- varints

  /** The varint of v: seven bits per byte, lowest first, high bit set on all but the last byte. */
  ghost function Varint(v: nat): (s: Str)
    ensures s != []
  {
    if v < 128 then [v] else [v % 128 + 128] + Varint(v / 128)
  }

  /** The varint at the start of s, within the first n bytes: its value and its length. */
  ghost function VarintAt(s: Str, n: nat): (r: Option<(nat, nat)>)
    ensures r.Some? ==> 0 < r.value.1 <= |s| && r.value.1 <= n
  {
    if n == 0 || s == [] then None
    else if s[0] < 128 then Some((s[0], 1))
    else
      var r := VarintAt(s[1..], n - 1);
      if r.None? then None else Some((s[0] - 128 + 128 * r.value.0, r.value.1 + 1))
  }

  /** Decoding what was encoded gives the value back and stops right behind it. */
  lemma {:induction false} VarintRoundTrip(v: nat, n: nat, rest: Str)
    requires n > 0 && v < Pow(128, n)
    ensures VarintAt(Varint(v) + rest, n) == Some((v, |Varint(v)|))
  {
    if v >= 128 {
      var s := Varint(v) + rest;
      assert v / 128 < Pow(128, n - 1);
      VarintRoundTrip(v / 128, n - 1, rest);
      assert s[1..] == Varint(v / 128) + rest;
    }
  }

  /** EncodeVarint64 (EncodeVarint32 writes the same bytes without a loop). */
  method EncodeVarint(v: nat) returns (s: Str)
    ensures s == Varint(v)
  {
    s := [];
    var x := v;
    while x >= 128
      invariant s + Varint(x) == Varint(v)
    {
      var b, rest := x % 128 + 128, x / 128;
      assert Varint(x) == [b] + Varint(rest);
      assert s + ([b] + Varint(rest)) == (s + [b]) + Varint(rest);
      s, x := s + [b], rest;
    }
    s := s + [x];
  }

  /** GetVarint32PtrFallback and GetVarint64Ptr: the shift loop, over at most maxBytes bytes. */
  method GetVarint(s: Str, maxBytes: nat) returns (r: Option<(nat, nat)>)
    ensures r == VarintAt(s, maxBytes)
  {
    var result: nat, scale: nat, i: nat := 0, 1, 0;
    while i < maxBytes && i < |s|
      invariant 0 <= i <= maxBytes && i <= |s|
      invariant VarintAt(s, maxBytes) == Shifted(VarintAt(s[i..], maxBytes - i), result, scale, i)
    {
      ShiftStep(s[i..], maxBytes - i, result, scale, i);
      var more := AddShifted(result, s[i] % 128, scale);
      if s[i] < 128 {
        return Some((more, i + 1));
      }
      assert s[i..][1..] == s[i + 1..];
      result, scale, i := more, scale * 128, i + 1;
    }
    return None;
  }

  function AddShifted(result: nat, bits: nat, scale: nat): nat {
    result + bits * scale
  }

  ghost function Shifted(r: Option<(nat, nat)>, result: nat, scale: nat, used: nat): Option<(nat, nat)> {
    if r.None? then None else Some((result + r.value.0 * scale, r.value.1 + used))
  }

  /** One turn of the loop moves seven bits from the unread varint into the result. */
  lemma ShiftStep(s: Str, n: nat, result: nat, scale: nat, used: nat)
    requires s != [] && n > 0
    ensures s[0] < 128 ==>
              Shifted(VarintAt(s, n), result, scale, used) == Some((AddShifted(result, s[0], scale), 1 + used))
    ensures s[0] >= 128 ==> Shifted(VarintAt(s, n), result, scale, used) ==
                            Shifted(VarintAt(s[1..], n - 1), AddShifted(result, s[0] % 128, scale), scale * 128,
                                    used + 1)
  {
    if s[0] >= 128 {
      ShiftOnce(VarintAt(s[1..], n - 1), s[0], result, scale, used);
    }
  }

  lemma ShiftOnce(r: Option<(nat, nat)>, b: Byte, result: nat, scale: nat, used: nat)
    requires b >= 128
    ensures var outer := if r.None? then None else Some((b - 128 + 128 * r.value.0, r.value.1 + 1));
            Shifted(outer, result, scale, used) == Shifted(r, AddShifted(result, b % 128, scale), scale * 128, used + 1)
  {
    if r.Some? {
      calc {
        (b - 128 + 128 * r.value.0) * scale;
        (b - 128) * scale + 128 * r.value.0 * scale;
        (b % 128) * scale + r.value.0 * (scale * 128);
      }
    }
  }

  // ----- fixed-width integers

  /** The n low bytes of v, lowest first. */
  ghost function Fixed(v: nat, n: nat): (s: Str)
    ensures |s| == n
  {
    if n == 0 then [] else [v % 256] + Fixed(v / 256, n - 1)
  }

  /** EncodeFixed32 and EncodeFixed64 */
  method EncodeFixed(v: nat, n: nat) returns (s: Str)
    ensures s == Fixed(v, n)
  {
    s := [];
    var x := v;
    for i := 0 to n
      invariant s + Fixed(x, n - i) == Fixed(v, n)
    {
      var b := x % 256;
      assert s + Fixed(x, n - i) == (s + [b]) + Fixed(x / 256, n - i - 1);
      s := s + [b];
      x := x / 256;
    }
  }

  function FixedValue(s: Str): nat {
    if s == [] then 0 else s[0] + 256 * FixedValue(s[1..])
  }

  /** DecodeFixed32 and DecodeFixed64 */
  method DecodeFixed(s: Str) returns (v: nat)
    ensures v == FixedValue(s)
  {
    v := 0;
    var i := |s|;
    while i > 0
      invariant 0 <= i <= |s| && v == FixedValue(s[i..])
    {
      i := i - 1;
      assert s[i..][1..] == s[i + 1..];
      v := s[i] + 256 * v;
    }
  }

  lemma {:induction false} FixedRoundTrip(v: nat, n: nat)
    requires v < Pow(256, n)
    ensures FixedValue(Fixed(v, n)) == v
  {
    if n > 0 {
      assert v / 256 < Pow(256, n - 1);
      FixedRoundTrip(v / 256, n - 1);
      assert Fixed(v, n)[1..] == Fixed(v / 256, n - 1);
    }
  }

  // ----- length-prefixed strings

  const MAX_LEN: nat := 0x1_0000_0000

  ghost function Prefixed(s: Str): Str {
    Varint(|s|) + s
  }

  /** GetLengthPrefixedSlice: the string and how many bytes it took. A fifth byte may overflow 32 bits. */
  ghost function PrefixedAt(s: Str): (r: Option<(Str, nat)>)
    ensures r.Some? ==> 0 < r.value.1 <= |s|
  {
    var r := VarintAt(s, 5);
    if r.None? then None
    else
      var len, start := r.value.0 % MAX_LEN, r.value.1;
      if len <= |s| - start then Some((s[start..start + len], start + len)) else None
  }

  lemma FourBytes()
    ensures Pow(256, 4) == MAX_LEN
  {
    assert Pow(256, 2) == 256 * 256;
    assert Pow(256, 4) == 256 * 256 * Pow(256, 2);
  }

  lemma FiveBytes()
    ensures MAX_LEN <= Pow(128, 5)
  {
    assert Pow(128, 1) == 128 && Pow(128, 2) == 128 * 128;
    assert Pow(128, 3) == 128 * 128 * 128;
    assert Pow(128, 4) == 128 * 128 * 128 * 128;
  }

  lemma PrefixedRoundTrip(s: Str, rest: Str)
    requires |s| < MAX_LEN
    ensures PrefixedAt(Prefixed(s) + rest) == Some((s, |Prefixed(s)|))
  {
    FiveBytes();
    VarintRoundTrip(|s|, 5, s + rest);
    assert Prefixed(s) + rest == Varint(|s|) + (s + rest);
  }

  // ----- 64-bit words

  const TWO_TO_64: nat := 0x1_0000_0000_0000_0000

  lemma EightBytes()
    ensures Pow(256, 8) == TWO_TO_64
  {
    FourBytes();
    assert Pow(256, 6) == 256 * 256 * Pow(256, 4);
    assert Pow(256, 8) == 256 * 256 * Pow(256, 6);
  }

  lemma TenBytes()
    ensures TWO_TO_64 <= Pow(128, 10)
  {
    FiveBytes();
    assert Pow(128, 7) == 128 * 128 * Pow(128, 5);
    assert Pow(128, 9) == 128 * 128 * Pow(128, 7);
  }
}
