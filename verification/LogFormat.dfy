/**
 The record log: records are fragmented over fixed-size blocks, and a reader puts them together
 again, even if the file was cut at any byte.
 */
module LogFormat {
  import opened Bytes
  import opened Coding

  /** kBlockSize */
  const BLOCK: nat := 32768
  /** kHeaderSize: checksum (4), length (2), type (1) */
  const HEADER: nat := 7

  const FULL: Byte := 1
  const FIRST: Byte := 2
  const MIDDLE: Byte := 3
  const LAST: Byte := 4
  /** kEof and kBadRecord share the number range of the record types. */
  const EOF: Byte := 5
  const BAD: Byte := 6

  datatype Frag = Frag(kind: Byte, data: Str)

  // ----- writing

  /** EmitPhysicalRecord */
  ghost function Emit(crc: Str -> nat, f: Frag): (s: Str)
    ensures |s| == HEADER + |f.data|
  {
    Fixed(crc([f.kind] + f.data), 4) + [|f.data| % 256, |f.data| / 256 % 256, f.kind] + f.data
  }

  ghost function Zeros(n: nat): (s: Str)
    ensures |s| == n
  {
    seq(n, _ => 0)
  }

  /** The trailer of a block with too little room for a header. */
  ghost function Pad(off: nat): (s: Str)
    ensures |s| == if off <= BLOCK < off + HEADER then BLOCK - off else 0
  {
    Zeros(if off <= BLOCK < off + HEADER then BLOCK - off else 0)
  }

  /** Where in its block the next fragment goes. */
  function Base(off: nat): (b: nat)
    ensures b + HEADER <= BLOCK
  {
    if off + HEADER <= BLOCK then off else 0
  }

  /** The block offset behind a fragment written from offset `off` on. */
  ghost function Behind(off: nat, f: Frag): nat {
    Base(off) + HEADER + |f.data|
  }

  function KindOf(begin: bool, end: bool): Byte {
    if begin && end then FULL else if begin then FIRST else if end then LAST else MIDDLE
  }

  /** The fragments of one record, written from block offset `off` on. */
  ghost function Fragments(off: nat, data: Str, begin: bool): (r: seq<Frag>)
    ensures r != []
    decreases |data|, Base(off)
  {
    var avail := BLOCK - Base(off) - HEADER;
    if |data| <= avail then [Frag(KindOf(begin, true), data)]
    else [Frag(KindOf(begin, false), data[..avail])] + Fragments(BLOCK, data[avail..], false)
  }

  /** Every fragment stays within its block. */
  ghost predicate Fits(off: nat, frags: seq<Frag>)
    decreases |frags|
  {
    frags == [] || (Behind(off, frags[0]) <= BLOCK && Fits(Behind(off, frags[0]), frags[1..]))
  }

  ghost function EndOffset(off: nat, frags: seq<Frag>): nat
    decreases |frags|
  {
    if frags == [] then off else EndOffset(Behind(off, frags[0]), frags[1..])
  }

  ghost function Layout(crc: Str -> nat, off: nat, frags: seq<Frag>): Str
    decreases |frags|
  {
    if frags == [] then []
    else Pad(off) + Emit(crc, frags[0]) + Layout(crc, Behind(off, frags[0]), frags[1..])
  }

  lemma {:induction false} FragmentsFit(off: nat, data: Str, begin: bool)
    requires off <= BLOCK
    ensures Fits(off, Fragments(off, data, begin)) && EndOffset(off, Fragments(off, data, begin)) <= BLOCK
    decreases |data|, Base(off)
  {
    var avail := BLOCK - Base(off) - HEADER;
    if |data| > avail {
      FragmentsFit(BLOCK, data[avail..], false);
    }
  }

  /** A writer that reopens a log at a block boundary continues as if it had not stopped. */
  lemma BlockBoundary(crc: Str -> nat, frags: seq<Frag>, data: Str, begin: bool)
    ensures Fragments(0, data, begin) == Fragments(BLOCK, data, begin)
    ensures frags != [] ==>
              Layout(crc, 0, frags) == Layout(crc, BLOCK, frags) && EndOffset(0, frags) == EndOffset(BLOCK, frags)
  {
  }

  class Writer {
    var dest: Str
    var blockOffset: nat

    ghost predicate Valid()
      reads this
    {
      blockOffset <= BLOCK
    }

    constructor (dest: Str)
      ensures Valid() && this.dest == dest && blockOffset == |dest| % BLOCK
    {
      this.dest := dest;
      blockOffset := |dest| % BLOCK;
    }

    method EmitPhysicalRecord(crc: Str -> nat, kind: Byte, data: Str)
      requires Valid() && blockOffset + HEADER + |data| <= BLOCK
      modifies this
      ensures Valid() && dest == old(dest) + Emit(crc, Frag(kind, data))
      ensures blockOffset == old(blockOffset) + HEADER + |data|
    {
      var check := EncodeFixed(crc([kind] + data), 4);
      dest := dest + (check + [|data| % 256, |data| / 256 % 256, kind]) + data;
      blockOffset := blockOffset + HEADER + |data|;
    }

    /** One turn of the fragment loop: the first fragment of what is left, behind a trailer if need be. */
    method EmitFragment(crc: Str -> nat, data: Str, begin: bool) returns (n: nat)
      requires Valid()
      modifies this
      ensures Valid() && n <= |data|
      ensures var first := Fragments(old(blockOffset), data, begin)[0];
              && |first.data| == n
              && dest == old(dest) + (Pad(old(blockOffset)) + Emit(crc, first))
              && blockOffset == Behind(old(blockOffset), first)
    {
      var leftover := BLOCK - blockOffset;
      if leftover < HEADER {
        dest := dest + seq(leftover, _ => 0);
        blockOffset := 0;
      }
      assert dest == old(dest) + Pad(old(blockOffset));
      var avail := BLOCK - blockOffset - HEADER;
      n := if |data| < avail then |data| else avail;
      assert n == |data| ==> data[..n] == data;
      EmitPhysicalRecord(crc, KindOf(begin, |data| == n), data[..n]);
    }

    /** Writer::AddRecord */
    method AddRecord(crc: Str -> nat, record: Str)
      requires Valid()
      modifies this
      ensures Valid()
      ensures var frags := Fragments(old(blockOffset), record, true);
              dest == old(dest) + Layout(crc, old(blockOffset), frags) &&
                  blockOffset == EndOffset(old(blockOffset), frags)
    {
      var data, begin, more := record, true, true;
      ghost var bytes, frags: seq<Frag> := [], Fragments(blockOffset, record, true);
      ghost var all, end := Layout(crc, blockOffset, frags), EndOffset(blockOffset, frags);
      while more
        invariant Valid() && dest == old(dest) + bytes && (more <==> frags != [])
        invariant more ==> frags == Fragments(blockOffset, data, begin)
        invariant bytes + Layout(crc, blockOffset, frags) == all && EndOffset(blockOffset, frags) == end
        decreases |frags|
      {
        ghost var off := blockOffset;
        var n := EmitFragment(crc, data, begin);
        LayoutBehind(crc, off, frags, bytes);
        FragmentsStep(off, data, begin);
        bytes, frags := bytes + (Pad(off) + Emit(crc, frags[0])), frags[1..];
        more := n < |data|;
        data, begin := data[n..], false;
      }
    }
  }

  lemma LayoutStep(crc: Str -> nat, off: nat, frags: seq<Frag>)
    requires frags != []
    ensures Layout(crc, off, frags) == (Pad(off) + Emit(crc, frags[0])) + Layout(crc, Behind(off, frags[0]), frags[1..])
    ensures EndOffset(off, frags) == EndOffset(Behind(off, frags[0]), frags[1..])
  {
  }

  lemma LayoutBehind(crc: Str -> nat, off: nat, frags: seq<Frag>, bytes: Str)
    requires frags != []
    ensures bytes + Layout(crc, off, frags) ==
            (bytes + (Pad(off) + Emit(crc, frags[0]))) + Layout(crc, Behind(off, frags[0]), frags[1..])
    ensures EndOffset(off, frags) == EndOffset(Behind(off, frags[0]), frags[1..])
  {
    LayoutStep(crc, off, frags);
  }

  lemma FragmentsStep(off: nat, data: Str, begin: bool)
    requires off <= BLOCK
    ensures var frags := Fragments(off, data, begin);
            var n := |frags[0].data|;
            && n <= |data|
            && Behind(off, frags[0]) <= BLOCK
            && (n == |data| <==> frags[1..] == [])
            && (n < |data| ==> frags[1..] == Fragments(Behind(off, frags[0]), data[n..], false))
  {
  }
}
