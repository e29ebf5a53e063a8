/** Sequential reading of a value log through a block-sized buffer. */
module VlogReader {
  import opened Bytes
  import opened Coding
  import opened VlogFrames
  import opened VlogFormat

  /** kBlockSize */
  const BLOCK: nat := 32768

  class VReader {
    const file: Str
    var pos: nat
    const backing: array<Byte>
    var start: nat
    var len: nat
    var eof: bool

    ghost predicate Valid()
      reads this
    {
      && backing.Length == BLOCK
      && start + len <= BLOCK
      && pos <= |file|
      && (eof ==> pos == |file|)
    }

    /** buffer_ */
    ghost function Buffer(): Str
      requires Valid()
      reads this, backing
    {
      backing[start..start + len]
    }

    /** What the reader has not consumed yet. */
    ghost function Rest(): Str
      requires Valid()
      reads this, backing
    {
      Buffer() + file[pos..]
    }

    constructor (file: Str)
      ensures Valid() && Rest() == file && this.file == file
      ensures fresh(backing)
    {
      this.file := file;
      pos, start, len, eof := 0, 0, 0, false;
      backing := new Byte[BLOCK](_ => 0);
    }

    /** SequentialFile::Read into the backing store: short only at the end of the file. */
    method ReadFile(n: nat, at: nat) returns (got: nat)
      requires Valid() && at + n <= BLOCK
      modifies this`pos, backing
      ensures got == (if n <= |file| - old(pos) then n else |file| - old(pos)) && pos == old(pos) + got
      ensures backing[..at] == old(backing[..at]) && backing[at..at + got] == file[old(pos)..pos]
    {
      got := if n <= |file| - pos then n else |file| - pos;
      forall i | 0 <= i < got {
        backing[at + i] := file[pos + i];
      }
      pos := pos + got;
    }

    /** memmove of the leftover bytes */
    method MoveToFront()
      requires Valid()
      modifies this`start, backing
      ensures Valid() && start == 0 && Buffer() == old(Buffer()) && Rest() == old(Rest())
    {
      forall i | 0 <= i < len {
        backing[i] := backing[start + i];
      }
      start := 0;
    }

    /** The rest of the block is read behind what is buffered. */
    method ReadBehind()
      requires Valid() && start == 0 && !eof
      modifies this`pos, this`len, this`eof, backing
      ensures Valid() && Rest() == old(Rest())
      ensures len < BLOCK ==> pos == |file|
    {
      ghost var left, from := backing[..len], pos;
      var got := ReadFile(BLOCK - len, len);
      Glued(backing[..len + got], left, file[from..pos]);
      RestKept(left, file, from, pos);
      len := len + got;
      if len < BLOCK {
        eof := true;
      }
    }

    /** The leftover bytes move to the front and the rest of the block is read behind them. */
    method Refill()
      requires Valid() && len < HEADER && !eof
      modifies this`pos, this`start, this`len, this`eof, backing
      ensures Valid() && Rest() == old(Rest())
      ensures len < HEADER ==> pos == |file|
    {
      MoveToFront();
      ReadBehind();
    }

    /** The last n bytes of a record, straight from the file; the buffer is empty. */
    method TakeDirect(n: nat) returns (r: Option<Str>)
      requires Valid() && len == 0 && !eof
      modifies this`pos, this`eof
      ensures Valid()
      ensures r.Some? <==> n <= |old(Rest())|
      ensures r.Some? ==> r.value == old(Rest())[..n] && Rest() == old(Rest())[n..]
    {
      if |file| - pos < n {
        pos := |file|;
        eof := true;
        return None;
      }
      r := Some(file[pos..pos + n]);
      pos := pos + n;
    }

    /** The next n bytes, all of them buffered. */
    method Consume(n: nat) returns (bytes: Str)
      requires Valid() && n <= len
      modifies this`start, this`len
      ensures Valid() && |bytes| == n <= |old(Rest())|
      ensures bytes == old(Rest())[..n] && Rest() == old(Rest())[n..]
    {
      ghost var rest := Rest();
      bytes := backing[start..start + n];
      assert bytes == rest[..n];
      start, len := start + n, len - n;
      assert Rest() == rest[n..];
    }

    /** One more block into the empty buffer. */
    method FillBlock()
      requires Valid() && len == 0 && !eof
      modifies this`pos, this`start, this`len, this`eof, backing
      ensures Valid() && Rest() == old(Rest())
      ensures len < BLOCK ==> pos == |file|
    {
      start := 0;
      ReadBehind();
    }

    /** The last n bytes of a record, from one more block; what follows them stays buffered. */
    method TakeFromBlock(n: nat) returns (r: Option<Str>)
      requires Valid() && len == 0 && !eof && n <= BLOCK
      modifies this`pos, this`start, this`len, this`eof, backing
      ensures Valid()
      ensures r.Some? <==> n <= |old(Rest())|
      ensures r.Some? ==> r.value == old(Rest())[..n] && Rest() == old(Rest())[n..]
    {
      FillBlock();
      if len < n {
        return None;
      }
      var bytes := Consume(n);
      return Some(bytes);
    }

    /** The next `length` bytes as a record: from the buffer, or from buffer and file. */
    method TakeBody(length: nat) returns (r: Option<Str>)
      requires Valid()
      modifies this`pos, this`start, this`len, this`eof, backing
      ensures Valid()
      ensures r.Some? <==> length <= |old(Rest())|
      ensures r.Some? ==> r.value == old(Rest())[..length] && Rest() == old(Rest())[length..]
    {
      if length <= len {
        var bytes := Consume(length);
        return Some(bytes);
      }
      if eof {
        return None;
      }
      ghost var rest := Rest();
      var scratch := Consume(len);
      ghost var more := Rest();
      TwoParts(rest, |scratch|);
      var left := length - |scratch|;
      var tail: Option<Str>;
      if left > BLOCK / 2 {
        tail := TakeDirect(left);
      } else {
        tail := TakeFromBlock(left);
      }
      if tail.None? {
        return None;
      }
      AcrossParts(scratch, more, left);
      return Some(scratch + tail.value);
    }

    /** The header of the next record, if there is room for one. */
    method TakeHeader() returns (r: Option<Str>)
      requires Valid()
      modifies this`pos, this`start, this`len, this`eof, backing
      ensures Valid()
      ensures r.Some? <==> HEADER <= |old(Rest())|
      ensures r.Some? ==> r.value == old(Rest())[..HEADER] && Rest() == old(Rest())[HEADER..]
    {
      if len < HEADER && !eof {
        Refill();
      }
      if len < HEADER {
        return None;
      }
      var bytes := Consume(HEADER);
      return Some(bytes);
    }

    /** VReader::ReadRecord: the next complete record with a fitting checksum, or nothing. */
    method ReadRecord(crc: Str -> nat) returns (r: Option<Str>)
      requires Valid()
      modifies this`pos, this`start, this`len, this`eof, backing
      ensures Valid()
      ensures r == FrameAt(crc, old(Rest()))
      ensures r.Some? ==> Rest() == old(Rest())[HEADER + |r.value|..]
    {
      ghost var rest := Rest();
      var header := TakeHeader();
      if header.None? {
        return None;
      }
      var length := DecodeFixed(header.value[4..]);
      var record := TakeBody(length);
      HeaderAndBody(crc, rest, length, record);
      if record.None? {
        return None;
      }
      var check := EncodeFixed(crc(record.value), 4);
      return if check == header.value[..4] then record else None;
    }
  }

  lemma TwoParts(s: Str, n: nat)
    requires n <= |s|
    ensures s == s[..n] + s[n..]
  {}

  lemma Glued(s: Str, a: Str, b: Str)
    requires |s| == |a| + |b| && s[..|a|] == a && s[|a|..] == b
    ensures s == a + b
  {}

  lemma AcrossParts(a: Str, b: Str, n: nat)
    requires n <= |b|
    ensures (a + b)[..|a| + n] == a + b[..n] && (a + b)[|a| + n..] == b[n..]
  {}

  lemma RestKept(left: Str, file: Str, from: nat, pos: nat)
    requires from <= pos <= |file|
    ensures (left + file[from..pos]) + file[pos..] == left + file[from..]
  {}

  /** Header and body, taken one after the other, are the frame at the start. */
  lemma HeaderAndBody(crc: Str -> nat, s: Str, n: nat, body: Option<Str>)
    requires HEADER <= |s| && n == FixedValue(s[..HEADER][4..])
    requires if n <= |s[HEADER..]| then body == Some(s[HEADER..][..n]) else body == None
    ensures FrameAt(crc, s) == if body.Some? && Fixed(crc(body.value), 4) == s[..HEADER][..4] then body else None
    ensures body.Some? ==> s[HEADER..][n..] == s[HEADER + n..]
  {
    assert s[..HEADER][4..] == s[4..HEADER] && s[..HEADER][..4] == s[..4];
    if body.Some? {
      assert s[HEADER..][..n] == s[HEADER..HEADER + n];
    }
  }

  ghost predicate OffsetsOf(records: seq<Str>, offsets: seq<nat>) {
    |offsets| == |records| && forall i | 0 <= i < |records| :: offsets[i] == LogLength(records[..i]) + HEADER
  }

  /** Part way through a pass: `records` have been read and the file's frames continue with those of `rest`. */
  ghost predicate Passing(crc: Str -> nat, file: Str, rest: Str, records: seq<Str>, offsets: seq<nat>, offset: nat) {
    && FramesOf(crc, file) == records + FramesOf(crc, rest)
    && offset == LogLength(records)
    && OffsetsOf(records, offsets)
  }

  lemma PassStep(crc: Str -> nat, file: Str, rest: Str, records: seq<Str>, offsets: seq<nat>, offset: nat)
    requires Passing(crc, file, rest, records, offsets, offset)
    ensures FrameAt(crc, rest).None? ==> FramesOf(crc, file) == records
    ensures FrameAt(crc, rest).Some? ==>
              var p := FrameAt(crc, rest).value;
              Passing(crc, file, rest[HEADER + |p|..], records + [p], offsets + [offset + HEADER],
                      offset + HEADER + |p|)
  {
    var f := FrameAt(crc, rest);
    assert records + [] == records;
    if f.Some? {
      var more := FramesOf(crc, rest[HEADER + |f.value|..]);
      assert records + ([f.value] + more) == (records + [f.value]) + more;
      OffsetsAppend(records, offsets, f.value);
    }
  }

  lemma OffsetsAppend(records: seq<Str>, offsets: seq<nat>, p: Str)
    requires OffsetsOf(records, offsets)
    ensures OffsetsOf(records + [p], offsets + [LogLength(records) + HEADER])
    ensures LogLength(records + [p]) == LogLength(records) + HEADER + |p|
  {
    var done := records + [p];
    assert done[..|done| - 1] == records;
    assert forall i | 0 <= i < |records| :: done[..i] == records[..i];
  }

  /** The reading loop of a GC pass, with its running offset. */
  method ReadAll(crc: Str -> nat, file: Str) returns (records: seq<Str>, offsets: seq<nat>)
    ensures records == FramesOf(crc, file) && OffsetsOf(records, offsets)
  {
    records, offsets := [], [];
    var reader := new VReader(file);
    var offset: nat := 0;
    ghost var rest := file;
    while true
      invariant reader.Valid() && fresh(reader) && fresh(reader.backing) && rest == reader.Rest()
      invariant Passing(crc, file, rest, records, offsets, offset)
      decreases |rest|
    {
      var record := reader.ReadRecord(crc);
      PassStep(crc, file, rest, records, offsets, offset);
      if record.None? {
        return;
      }
      rest := reader.Rest();
      offsets := offsets + [offset + HEADER];
      records := records + [record.value];
      offset := offset + HEADER + |record.value|;
    }
  }

  /**
   On any byte prefix of a log, a pass finds exactly the records wholly contained in it, each at the
   offset it was written at.
   */
  method ReadCutLog(crc: Str -> nat, ghost payloads: seq<Str>, file: Str) returns (records: seq<Str>, offsets: seq<nat>)
    requires forall p | p in payloads :: |p| < TWO_TO_64
    requires file <= Concat(Framed(crc, payloads))
    ensures records == payloads[..WholeChunks(Framed(crc, payloads), |file|)] && OffsetsOf(records, offsets)
  {
    records, offsets := ReadAll(crc, file);
    FramesOfPrefix(crc, payloads, |file|);
    assert file == Concat(Framed(crc, payloads))[..|file|];
  }

  /** What writing these batches to vlog number `vlog` hands out for each of them. */
  ghost predicate HandedAtWrite(batches: seq<seq<Op>>, reps: seq<Str>, vlog: nat, handed: seq<seq<Handed>>) {
    |handed| == |batches| == |reps| &&
    forall i | 0 <= i < |batches| ::
      handed[i] == Addresses(WithSizes(batches[i], Encoded(batches[i])), vlog,
                             LogLength(reps[..i]) + HEADER + BATCH_HEADER)
  }

  ghost predicate AreBatches(reps: seq<Str>, batches: seq<seq<Op>>) {
    |batches| == |reps| &&
    forall i | 0 <= i < |reps| :: IsBatch(reps[i], batches[i]) && BatchCount(reps[i]) == |batches[i]|
  }

  /**
   RecoverLogFile on any byte prefix of a log: replaying it from head 0 hands out, for exactly the
   batches wholly contained in it, the addresses of the time of writing.
   */
  method Recover(crc: Str -> nat, ghost batches: seq<seq<Op>>, ghost reps: seq<Str>, file: Str, vlog: nat)
      returns (handed: seq<seq<Handed>>, head: nat)
    requires file <= Concat(Framed(crc, reps)) && AreBatches(reps, batches)
    requires forall r | r in reps :: |r| < TWO_TO_64
    ensures var k := WholeChunks(Framed(crc, reps), |file|);
            Recovered(batches[..k], reps[..k], vlog, handed, head) && head <= |file|
    ensures file == Concat(Framed(crc, reps)) ==> Recovered(batches, reps, vlog, handed, head) && head == |file|
  {
    ghost var k := WholeChunks(Framed(crc, reps), |file|);
    var records, offsets := ReadCutLog(crc, reps, file);
    FirstBatches(reps, batches, k);
    handed, head := Replay(records, batches[..k], vlog);
    CutLength(crc, reps, |file|);
    AllRecovered(batches, reps, vlog, handed, head, k);
  }

  /** The addresses are those of the time of writing and the head is behind the last batch. */
  ghost predicate Recovered(batches: seq<seq<Op>>, reps: seq<Str>, vlog: nat, handed: seq<seq<Handed>>, head: nat) {
    HandedAtWrite(batches, reps, vlog, handed) && head == LogLength(reps)
  }

  lemma AllRecovered(batches: seq<seq<Op>>, reps: seq<Str>, vlog: nat, handed: seq<seq<Handed>>, head: nat, k: nat)
    requires k <= |reps| == |batches| && Recovered(batches[..k], reps[..k], vlog, handed, head)
    ensures k == |reps| ==> Recovered(batches, reps, vlog, handed, head)
  {
    assert k == |reps| ==> reps[..k] == reps && batches[..k] == batches;
  }

  lemma FirstBatches(reps: seq<Str>, batches: seq<seq<Op>>, k: nat)
    requires AreBatches(reps, batches) && k <= |reps|
    ensures AreBatches(reps[..k], batches[..k])
  {}

  /** The length of the part of a cut log that is wholly there. */
  lemma CutLength(crc: Str -> nat, reps: seq<Str>, n: nat)
    ensures var k := WholeChunks(Framed(crc, reps), n);
            LogLength(reps[..k]) <= n && (n == |Concat(Framed(crc, reps))| ==> k == |reps| && LogLength(reps) == n)
  {
    var k := WholeChunks(Framed(crc, reps), n);
    WholeChunksFit(Framed(crc, reps), n);
    FramedPrefix(crc, reps, k);
    LogLengthIsLength(crc, reps[..k]);
    LogLengthIsLength(crc, reps);
    AllWhole(Framed(crc, reps));
  }

  method Replay(records: seq<Str>, ghost batches: seq<seq<Op>>, vlog: nat) returns (handed: seq<seq<Handed>>, head: nat)
    requires AreBatches(records, batches)
    ensures Recovered(batches, records, vlog, handed, head)
  {
    handed, head := [], 0;
    for k := 0 to |records|
      invariant head == LogLength(records[..k])
      invariant HandedAtWrite(batches[..k], records[..k], vlog, handed)
    {
      var h, next := RecoverRecord(records[k], batches[k], vlog, head);
      HandedStep(batches, records, vlog, handed, k, h);
      handed, head := handed + [h], next;
    }
    assert records[..|records|] == records && batches[..|records|] == batches;
  }

  /** One turn of the replay loop. */
  method RecoverRecord(record: Str, ghost ops: seq<Op>, vlog: nat, vlogHead: nat)
    returns (handed: seq<Handed>, head: nat)
    requires IsBatch(record, ops) && BatchCount(record) == |ops|
    ensures handed == Addresses(WithSizes(ops, Encoded(ops)), vlog, vlogHead + HEADER + BATCH_HEADER)
    ensures head == vlogHead + HEADER + |record|
  {
    var count := DecodeFixed(record[8..BATCH_HEADER]);
    handed, head := HandOutAddresses(record, ops, count, vlog, vlogHead + HEADER);
  }

  lemma HandedStep(batches: seq<seq<Op>>, reps: seq<Str>, vlog: nat, handed: seq<seq<Handed>>, k: nat, h: seq<Handed>)
    requires k < |batches| == |reps| && HandedAtWrite(batches[..k], reps[..k], vlog, handed)
    requires h == Addresses(WithSizes(batches[k], Encoded(batches[k])), vlog,
                            LogLength(reps[..k]) + HEADER + BATCH_HEADER)
    ensures HandedAtWrite(batches[..k + 1], reps[..k + 1], vlog, handed + [h])
    ensures LogLength(reps[..k + 1]) == LogLength(reps[..k]) + HEADER + |reps[k]|
  {
    assert reps[..k + 1][..k] == reps[..k];
    assert forall i | 0 <= i < k :: reps[..k + 1][..i] == reps[..k][..i];
  }
}
