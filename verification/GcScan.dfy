/**
 The collection protocol's addresses in terms of bytes: a slave's log file is the framed encodings
 of its records, a scan's running offsets are the addresses issued, and an address fetches its value.
 */
module GcScan {
  import opened Bytes
  import opened VlogFrames
  import opened VlogFormat
  import opened VlogReader
  import opened GcProtocol

  /** encode_vlog_entry */
  ghost function Entry(r: Rec): Str {
    EncodeOp(PutOp(r.key, r.value))
  }

  ghost function EntrySize(r: Rec): nat {
    |Entry(r)|
  }

  ghost function Entries(log: seq<Rec>): (s: seq<Str>)
    ensures |s| == |log| && forall i | 0 <= i < |log| :: s[i] == Entry(log[i])
  {
    if log == [] then [] else Entries(log[..|log| - 1]) + [Entry(log[|log| - 1])]
  }

  lemma {:induction false} StartIsLength(size: SizeOf, log: seq<Rec>, payloads: seq<Str>, i: nat)
    requires i <= |log| == |payloads| && forall j | 0 <= j < |log| :: size(log[j]) == |payloads[j]|
    ensures Start(size, log, i) == LogLength(payloads[..i])
  {
    if i > 0 {
      StartIsLength(size, log, payloads, i - 1);
      assert payloads[..i][..i - 1] == payloads[..i - 1];
    }
  }

  lemma EntryParses(r: Rec)
    requires OpOk(PutOp(r.key, r.value))
    ensures ParseValue(Entry(r)) == Some(r.value)
  {
    OpRoundTrip(PutOp(r.key, r.value), []);
    assert Entry(r) + [] == Entry(r);
  }

  /** GC recomputes, record by record, exactly the addresses that were issued when they were written. */
  lemma ScanFindsAddresses(log: seq<Rec>, vlog: nat, offsets: seq<nat>, i: nat)
    requires OffsetsOf(Entries(log), offsets) && i < |log|
    ensures Addr(vlog, offsets[i], |Entries(log)[i]|) == AddressOf(EntrySize, log, vlog, i)
  {
    StartIsLength(EntrySize, log, Entries(log), i);
  }

  lemma LengthBefore(crc: Str -> nat, payloads: seq<Str>, i: nat)
    requires i <= |payloads|
    ensures LogLength(payloads[..i]) == |Concat(Framed(crc, payloads)[..i])|
  {
    LogLengthIsLength(crc, payloads[..i]);
    assert Framed(crc, payloads)[..i] == Framed(crc, payloads[..i]);
  }

  lemma PayloadInChunk(file: Str, chunk: Str, payload: Str, at: nat)
    requires |chunk| == HEADER + |payload| && chunk[HEADER..] == payload && at >= HEADER
    requires at + |payload| <= |file| && file[at - HEADER..at + |payload|] == chunk
    ensures file[at..at + |payload|] == payload
  {
    assert file[at..at + |payload|] == file[at - HEADER..at + |payload|][HEADER..];
  }

  lemma FrameTail(crc: Str -> nat, payload: Str)
    ensures Frame(crc, payload)[HEADER..] == payload
  {
  }

  lemma FrameAtOffset(crc: Str -> nat, payloads: seq<Str>, file: Str, i: nat, at: nat, n: nat)
    requires i < |payloads| && file == Concat(Framed(crc, payloads))
    requires at == LogLength(payloads[..i]) + HEADER && n == |payloads[i]|
    ensures at + n <= |file| && file[at..at + n] == payloads[i]
  {
    LengthBefore(crc, payloads, i);
    FrameTail(crc, payloads[i]);
    PayloadAt(Framed(crc, payloads), payloads[i], file, i, at, n);
  }

  lemma PayloadAt(chunks: seq<Str>, payload: Str, file: Str, i: nat, at: nat, n: nat)
    requires i < |chunks| && file == Concat(chunks) && at == |Concat(chunks[..i])| + HEADER && n == |payload|
    requires |chunks[i]| == HEADER + n && chunks[i][HEADER..] == payload
    ensures at + n <= |file| && file[at..at + n] == payload
  {
    ChunkAtStart(chunks, file, i, at - HEADER, at + n);
    PayloadInChunk(file, chunks[i], payload, at);
  }

  lemma ChunkAtStart(chunks: seq<Str>, file: Str, i: nat, start: nat, end: nat)
    requires i < |chunks| && file == Concat(chunks) && start == |Concat(chunks[..i])| && end == start + |chunks[i]|
    ensures end <= |file| && file[start..end] == chunks[i]
  {
    ChunkAt(chunks, [], [], i);
    assert [] + file + [] == file;
  }

  lemma AddressHoldsPayload(crc: Str -> nat, size: SizeOf, log: seq<Rec>, payloads: seq<Str>, file: Str, vlog: nat,
                            i: nat)
    requires i < |log| == |payloads| && forall j | 0 <= j < |log| :: size(log[j]) == |payloads[j]|
    requires file == Concat(Framed(crc, payloads))
    ensures var a := AddressOf(size, log, vlog, i);
            a.offset + a.size <= |file| && file[a.offset..a.offset + a.size] == payloads[i]
  {
    StartIsLength(size, log, payloads, i);
    var a := AddressOf(size, log, vlog, i);
    FrameAtOffset(crc, payloads, file, i, a.offset, a.size);
  }

  /** Fetching an issued address from the slave's file and parsing it yields the record's value. */
  lemma AddressFetchesValue(crc: Str -> nat, log: seq<Rec>, payloads: seq<Str>, file: Str, vlog: nat, i: nat)
    requires payloads == Entries(log) && file == Concat(Framed(crc, payloads))
    requires i < |log| && OpOk(PutOp(log[i].key, log[i].value))
    ensures var a := AddressOf(EntrySize, log, vlog, i);
            a.offset + a.size <= |file| && ParseValue(file[a.offset..a.offset + a.size]) == Some(log[i].value)
  {
    AddressHoldsPayload(crc, EntrySize, log, payloads, file, vlog, i);
    EntryParses(log[i]);
  }
}
