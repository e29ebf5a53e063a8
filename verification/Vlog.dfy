/**
 The value log of a running database: each vlog is a file followed by a buffer, values are
 addressed by their place in file ++ buffer, and a full vlog is succeeded by a new one.
 */
module Vlog {
  import opened Bytes
  import opened Coding
  import opened VlogFrames
  import opened VlogFormat

  /** WriteBufferSize */
  const BUFFER_SIZE: nat := 4096

  /** The bytes of one vlog, split where the file ends and the buffer begins. */
  datatype Split = Split(file: Str, buffer: Str) {
    ghost function Log(): Str {
      file + buffer
    }

    /** The n bytes at offset lie in one of the two parts. */
    ghost predicate Whole(offset: nat, n: nat) {
      offset + n <= |file| || |file| <= offset <= offset + n <= |Log()|
    }
  }

  /** What was in one part stays in one part. */
  ghost predicate StaysWhole(s: Split, t: Split, offset: nat, n: nat) {
    s.Whole(offset, n) ==> t.Whole(offset, n)
  }

  /** Later bytes come behind, and nothing is torn apart. */
  ghost predicate Extends(s: Split, t: Split) {
    s.Log() <= t.Log() && forall offset, n :: StaysWhole(s, t, offset, n)
  }

  /** t is s with the frame behind it, in one part. */
  ghost predicate Appended(s: Split, t: Split, frame: Str) {
    t.Log() == s.Log() + frame && t.Whole(|s.Log()|, |frame|) && Extends(s, t)
  }

  /** Buffering, flushing first, and writing past an empty buffer all append. */
  lemma GrowthAppends(s: Split, frame: Str)
    ensures Appended(s, Split(s.file, s.buffer + frame), frame)
    ensures Appended(s, Split(s.Log(), frame), frame)
    ensures Appended(s, Split(s.Log() + frame, []), frame)
  {
    assert Split(s.file, s.buffer + frame).Log() == s.Log() + frame;
    assert Split(s.Log() + frame, []).Log() == s.Log() + frame;
  }

  lemma BufferSlice(file: Str, buffer: Str, at: nat, n: nat, offset: nat)
    requires at + n <= |buffer| && offset == |file| + at
    ensures (file + buffer)[offset..offset + n] == buffer[at..at + n]
  {
    var all := file + buffer;
    assert forall i | at <= i < at + n :: all[|file| + i] == buffer[i];
  }

  class VlogInfo {
    var file: Str
    const buffer: array<Byte>
    var size: nat
    var head: nat

    ghost predicate Valid()
      reads this
    {
      buffer.Length == BUFFER_SIZE && size <= BUFFER_SIZE && head == |file|
    }

    ghost function Abs(): Split
      requires Valid()
      reads this, buffer
    {
      Split(file, buffer[..size])
    }

    constructor ()
      ensures Valid() && Abs() == Split([], [])
      ensures fresh(buffer)
    {
      file, size, head := [], 0, 0;
      buffer := new Byte[BUFFER_SIZE](_ => 0);
    }

    /** memcpy behind the buffered bytes */
    method CopyIn(s: Str)
      requires Valid() && size + |s| <= BUFFER_SIZE
      modifies this`size, buffer
      ensures Valid() && size == old(size) + |s| && Abs() == Split(file, old(Abs()).buffer + s)
    {
      ghost var was := buffer[..size];
      forall i | 0 <= i < |s| {
        buffer[size + i] := s[i];
      }
      size := size + |s|;
      assert buffer[..size] == was + s;
    }

    /** FlushCurrentBuffer, and the flush inside AddRecord */
    method FlushBuffer()
      requires Valid()
      modifies this`file, this`head, this`size
      ensures Valid() && size == 0 && Abs() == Split(old(Abs()).Log(), []) && Extends(old(Abs()), Abs())
    {
      GrowthAppends(Abs(), []);
      file := file + buffer[..size];
      head := head + size;
      size := 0;
    }

    /**
     VWriter::AddRecord: the log grows by exactly the record's frame, the frame lies wholly in the
     file or wholly in the buffer, and nothing written before is torn apart.
     */
    method AddRecord(crc: Str -> nat, payload: Str)
      requires Valid()
      modifies this`file, this`head, this`size, buffer
      ensures Valid()
      ensures Appended(old(Abs()), Abs(), Frame(crc, payload))
    {
      var check := EncodeFixed(crc(payload), 4);
      var length := EncodeFixed(|payload|, 8);
      var header := check + length;
      GrowthAppends(Abs(), header + payload);
      if size + HEADER + |payload| > BUFFER_SIZE {
        FlushBuffer();
        if HEADER + |payload| > BUFFER_SIZE {
          WriteThrough(header, payload);
        } else {
          Buffer(header, payload);
          assert Abs() == Split(old(Abs()).Log(), header + payload);
        }
      } else {
        Buffer(header, payload);
      }
    }

    /** Two memcpys into the buffer */
    method Buffer(header: Str, payload: Str)
      requires Valid() && size + |header| + |payload| <= BUFFER_SIZE
      modifies this`size, buffer
      ensures Valid() && Abs() == Split(file, old(Abs()).buffer + (header + payload))
    {
      CopyIn(header);
      CopyIn(payload);
      assert Abs().buffer == old(Abs()).buffer + (header + payload);
    }

    /** A record too large for the buffer goes straight to the file. */
    method WriteThrough(header: Str, payload: Str)
      requires Valid() && size == 0
      modifies this`file, this`head
      ensures Valid() && Abs() == Split(old(file) + (header + payload), [])
    {
      file := file + header;
      head := head + |header|;
      file := file + payload;
      head := head + |payload|;
      assert file == old(file) + (header + payload);
    }

    /** VlogFetcher::Get: a put held by this vlog yields its value. */
    method Get(offset: nat, n: nat, ghost i: Issued) returns (value: Option<Str>)
      requires Valid() && Holds(Abs(), i) && offset == i.addr.offset && n == i.addr.size
      ensures value == Some(i.value)
    {
      assert n > 0;
      var bytes := ReadAt(offset, n);
      OpRoundTrip(PutOp(i.key, i.value), []);
      assert bytes + [] == bytes;
      var op := ReadOp(bytes);
      return if op.Some? && op.value.0.PutOp? then Some(op.value.0.value) else None;
    }

    /** Get without the parsing: the bytes come from the buffer or from the file. */
    method ReadAt(offset: nat, n: nat) returns (bytes: Str)
      requires Valid() && n > 0 && Abs().Whole(offset, n)
      ensures bytes == Abs().Log()[offset..offset + n]
    {
      if offset >= head {
        var at := offset - head;
        bytes := buffer[at..at + n];
        assert bytes == Abs().buffer[at..at + n];
        BufferSlice(file, Abs().buffer, at, n, offset);
      } else {
        bytes := file[offset..offset + n];
      }
    }
  }

  // ----- a session

  /** A put whose address has been handed out. */
  datatype Issued = Issued(addr: Addr, key: Str, value: Str)

  ghost predicate Holds(s: Split, i: Issued) {
    && OpOk(PutOp(i.key, i.value))
    && s.Whole(i.addr.offset, i.addr.size)
    && s.Log()[i.addr.offset..i.addr.offset + i.addr.size] == EncodeOp(PutOp(i.key, i.value))
  }

  lemma HoldsStays(s: Split, t: Split, i: Issued)
    requires Holds(s, i) && Extends(s, t)
    ensures Holds(t, i)
  {
    var a, b := i.addr.offset, i.addr.offset + i.addr.size;
    assert StaysWhole(s, t, i.addr.offset, i.addr.size);
    assert t.Log()[a..b] == s.Log()[a..b];
  }

  /** Every put of a batch that has just been appended is held at the address handed out for it. */
  lemma BatchHolds(s: Split, t: Split, header: Str, ops: seq<Op>, frame: Str, vlog: nat, i: nat)
    requires |header| == HEADER + BATCH_HEADER && frame == header + Concat(Encoded(ops))
    requires t.Log() == s.Log() + frame && t.Whole(|s.Log()|, |frame|)
    requires i < |ops| && OpOk(ops[i])
    ensures var handed := Addresses(WithSizes(ops, Encoded(ops)), vlog, |s.Log()| + HEADER + BATCH_HEADER);
            |handed| == |ops| && BatchHeld(handed, ops, vlog, t, i)
  {
    var chunks, at := Encoded(ops), |s.Log() + header|;
    AddressesName(ops, chunks, vlog, s.Log() + header, [], i);
    AddressCount(WithSizes(ops, chunks), vlog, at);
    AddressAt(WithSizes(ops, chunks), vlog, at, i);
    assert t.Log() == s.Log() + header + Concat(chunks) + [];
    NamedHeld(Addresses(WithSizes(ops, chunks), vlog, at)[i], ops[i], vlog, t, |s.Log()|, |frame|);
  }

  /** A put named by its address within a frame that lies in one part is held. */
  lemma NamedHeld(h: Handed, op: Op, vlog: nat, t: Split, start: nat, length: nat)
    requires Names(h, op, EncodeOp(op), vlog, t.Log()) && OpOk(op)
    requires t.Whole(start, length) && start + length == |t.Log()| && (op.PutOp? ==> start <= h.addr.offset)
    ensures Matches(h, op, vlog) && (op.PutOp? ==> Holds(t, Issued(h.addr, op.key, op.value)))
  {
    if op.PutOp? {
      PartWhole(t, start, length, h.addr.offset, h.addr.size);
    }
  }

  lemma PartWhole(t: Split, start: nat, length: nat, offset: nat, n: nat)
    requires t.Whole(start, length) && start <= offset && offset + n <= start + length
    ensures t.Whole(offset, n)
  {
  }

  /** Every address handed out names a vlog that still holds its value. */
  ghost predicate AllHeld(vlogs: map<nat, Split>, issued: set<Issued>) {
    forall i | i in issued :: i.addr.vlog in vlogs && Holds(vlogs[i.addr.vlog], i)
  }

  ghost function NewlyIssued(ops: seq<Op>, handed: seq<Handed>): set<Issued>
    requires |ops| == |handed|
  {
    set i | 0 <= i < |ops| && ops[i].PutOp? && handed[i].HandedPut? ::
      Issued(handed[i].addr, ops[i].key, ops[i].value)
  }

  /** A put is handed out with an address in the given vlog, a deletion without one. */
  ghost predicate Matches(h: Handed, op: Op, vlog: nat) {
    h.key == op.key && (h.HandedPut? <==> op.PutOp?) && (h.HandedPut? ==> h.addr.vlog == vlog)
  }

  ghost predicate BatchHeld(handed: seq<Handed>, ops: seq<Op>, vlog: nat, now: Split, i: nat)
    requires i < |ops| == |handed|
  {
    && Matches(handed[i], ops[i], vlog)
    && (ops[i].PutOp? ==> Holds(now, Issued(handed[i].addr, ops[i].key, ops[i].value)))
  }

  lemma HeldAfterBatch(vlogs: map<nat, Split>, issued: set<Issued>, cur: nat, now: Split, ops: seq<Op>,
                       handed: seq<Handed>)
    requires AllHeld(vlogs, issued) && cur in vlogs && Extends(vlogs[cur], now)
    requires |ops| == |handed| && forall i | 0 <= i < |ops| :: BatchHeld(handed, ops, cur, now, i)
    ensures AllHeld(vlogs[cur := now], issued + NewlyIssued(ops, handed))
  {
    var after := vlogs[cur := now];
    forall i | i in issued + NewlyIssued(ops, handed)
      ensures i.addr.vlog in after && Holds(after[i.addr.vlog], i)
    {
      if i in issued {
        if i.addr.vlog == cur {
          HoldsStays(vlogs[cur], now, i);
        }
      } else {
        var j :| 0 <= j < |ops| && ops[j].PutOp? && handed[j].HandedPut? &&
                 i == Issued(handed[j].addr, ops[j].key, ops[j].value);
        assert BatchHeld(handed, ops, cur, now, j);
      }
    }
  }

  /** After a batch's frame has been appended, every address handed out for it is held. */
  lemma BatchAllHeld(s: Split, t: Split, crc: Str -> nat, rep: Str, ops: seq<Op>, vlog: nat)
    requires IsBatch(rep, ops)
    requires Appended(s, t, Frame(crc, rep))
    ensures var handed := Addresses(WithSizes(ops, Encoded(ops)), vlog, |s.Log()| + HEADER + BATCH_HEADER);
            |handed| == |ops| && forall i | 0 <= i < |ops| :: BatchHeld(handed, ops, vlog, t, i)
  {
    var lead := Fixed(crc(rep), 4) + Fixed(|rep|, 8) + rep[..BATCH_HEADER];
    var frame := Frame(crc, rep);
    assert rep == rep[..BATCH_HEADER] + rep[BATCH_HEADER..];
    assert frame == lead + Concat(Encoded(ops));
    var handed := Addresses(WithSizes(ops, Encoded(ops)), vlog, |s.Log()| + HEADER + BATCH_HEADER);
    AddressCount(WithSizes(ops, Encoded(ops)), vlog, |s.Log()| + HEADER + BATCH_HEADER);
    forall i | 0 <= i < |ops|
      ensures BatchHeld(handed, ops, vlog, t, i)
    {
      BatchHolds(s, t, lead, ops, frame, vlog, i);
    }
  }

  lemma BatchStep(vlogs: map<nat, Split>, issued: set<Issued>, cur: nat, now: Split, crc: Str -> nat, rep: Str,
                  ops: seq<Op>, handed: seq<Handed>)
    requires AllHeld(vlogs, issued) && cur in vlogs && Appended(vlogs[cur], now, Frame(crc, rep))
    requires IsBatch(rep, ops)
    requires handed == Addresses(WithSizes(ops, Encoded(ops)), cur, |vlogs[cur].Log()| + HEADER + BATCH_HEADER)
    ensures |handed| == |ops| && forall i | 0 <= i < |ops| :: Matches(handed[i], ops[i], cur)
    ensures AllHeld(vlogs[cur := now], issued + NewlyIssued(ops, handed))
  {
    BatchAllHeld(vlogs[cur], now, crc, rep, ops, cur);
    HeldAfterBatch(vlogs, issued, cur, now, ops, handed);
    forall i | 0 <= i < |ops|
      ensures Matches(handed[i], ops[i], cur)
    {
      assert BatchHeld(handed, ops, cur, now, i);
    }
  }

  /** vlog_head_, the manager's vlogs and the addresses handed out so far. */
  datatype Session = Session(vlogs: map<nat, Split>, cur: nat, nextVlog: nat, vlogHead: nat, issued: set<Issued>)

  datatype Action = RollOver | WriteBatch(rep: Str, ops: seq<Op>, handed: seq<Handed>) | Flush

  ghost predicate Initial(s: Session) {
    s == Session(map[0 := Split([], [])], 0, 1, 0, {})
  }

  /** One step of the session; `crc` is the checksum function and maxSize is max_vlog_size. */
  ghost predicate Next(s: Session, a: Action, t: Session, crc: Str -> nat, maxSize: nat) {
    s.cur in s.vlogs &&
    match a
    case RollOver =>
      // MakeRoomForWrite: the old vlog keeps its unflushed buffer
      && s.vlogHead >= maxSize
      && t == s.(vlogs := s.vlogs[s.nextVlog := Split([], [])], cur := s.nextVlog, nextVlog := s.nextVlog + 1,
                 vlogHead := 0)
    case WriteBatch(rep, ops, handed) =>
      // DBImpl::Write: AddRecord on the current vlog, then HandOutAddresses from behind the frame header
      && IsBatch(rep, ops)
      && handed == Addresses(WithSizes(ops, Encoded(ops)), s.cur, s.vlogHead + HEADER + BATCH_HEADER)
      && |handed| == |ops|
      && s.cur in t.vlogs
      && Appended(s.vlogs[s.cur], t.vlogs[s.cur], Frame(crc, rep))
      && t == s.(vlogs := s.vlogs[s.cur := t.vlogs[s.cur]], vlogHead := s.vlogHead + HEADER + |rep|,
                 issued := s.issued + NewlyIssued(ops, handed))
    case Flush =>
      t == s.(vlogs := s.vlogs[s.cur := Split(s.vlogs[s.cur].Log(), [])])
  }

  ghost predicate SessionInv(s: Session) {
    && s.cur in s.vlogs
    && (forall n | n in s.vlogs :: n < s.nextVlog)
    && s.vlogHead == |s.vlogs[s.cur].Log()|
    && AllHeld(s.vlogs, s.issued)
  }

  lemma WriteKeepsInv(s: Session, rep: Str, ops: seq<Op>, handed: seq<Handed>, t: Session, crc: Str -> nat,
                      maxSize: nat)
    requires SessionInv(s) && Next(s, WriteBatch(rep, ops, handed), t, crc, maxSize)
    ensures SessionInv(t)
  {
    BatchStep(s.vlogs, s.issued, s.cur, t.vlogs[s.cur], crc, rep, ops, handed);
  }

  lemma FlushKeepsInv(s: Session, t: Session, crc: Str -> nat, maxSize: nat)
    requires SessionInv(s) && Next(s, Flush, t, crc, maxSize)
    ensures SessionInv(t)
  {
    var was, now := s.vlogs[s.cur], t.vlogs[s.cur];
    GrowthAppends(was, []);
    forall i | i in s.issued && i.addr.vlog == s.cur
      ensures Holds(now, i)
    {
      HoldsStays(was, now, i);
    }
  }

  lemma NextKeepsInv(s: Session, a: Action, t: Session, crc: Str -> nat, maxSize: nat)
    requires SessionInv(s) && Next(s, a, t, crc, maxSize)
    ensures SessionInv(t) && s.issued <= t.issued
  {
    match a
    case RollOver =>
    case WriteBatch(rep, ops, handed) => WriteKeepsInv(s, rep, ops, handed, t, crc, maxSize);
    case Flush => FlushKeepsInv(s, t, crc, maxSize);
  }

  ghost predicate IsRun(states: seq<Session>, actions: seq<Action>, crc: Str -> nat, maxSize: nat) {
    && |states| == |actions| + 1
    && Initial(states[0])
    && forall i | 0 <= i < |actions| :: Next(states[i], actions[i], states[i + 1], crc, maxSize)
  }

  /**
   In every reachable state the head is the end of file ++ buffer of the current vlog, and every
   address handed out so far lies wholly in the file or the buffer of its vlog and holds its put.
   */
  lemma {:induction false} RunsHoldValues(states: seq<Session>, actions: seq<Action>, crc: Str -> nat, maxSize: nat,
                                          i: nat)
    requires IsRun(states, actions, crc, maxSize) && i < |states|
    ensures SessionInv(states[i])
    ensures forall j | 0 <= j <= i :: states[j].issued <= states[i].issued
  {
    if i > 0 {
      RunsHoldValues(states, actions, crc, maxSize, i - 1);
      NextKeepsInv(states[i - 1], actions[i - 1], states[i], crc, maxSize);
    }
  }

  /** Each put of a batch written in a run stays readable, at the address it was given, ever after. */
  lemma WrittenStaysReadable(states: seq<Session>, actions: seq<Action>, crc: Str -> nat, maxSize: nat, i: nat,
                             j: nat, k: nat)
    requires IsRun(states, actions, crc, maxSize) && i < j < |states|
    requires actions[i].WriteBatch? && k < |actions[i].ops| && actions[i].ops[k].PutOp?
    ensures k < |actions[i].handed|
    ensures var h, op, s := actions[i].handed[k], actions[i].ops[k], states[j];
            h.HandedPut? && h.key == op.key && h.addr.vlog in s.vlogs &&
            Holds(s.vlogs[h.addr.vlog], Issued(h.addr, op.key, op.value))
  {
    RunsHoldValues(states, actions, crc, maxSize, i);
    RunsHoldValues(states, actions, crc, maxSize, j);
    var s, t, a := states[i], states[i + 1], actions[i];
    BatchStep(s.vlogs, s.issued, s.cur, t.vlogs[s.cur], crc, a.rep, a.ops, a.handed);
    assert Matches(a.handed[k], a.ops[k], s.cur);
    assert Issued(a.handed[k].addr, a.ops[k].key, a.ops[k].value) in t.issued;
    assert t.issued <= states[j].issued;
  }

  /**
   A vlog that holds the frames of batches `reps` holds those of one more after a write, and the
   addresses handed out are those a replay of the log from head 0 gives the new batch.
   */
  lemma WrittenAsFrames(s: Session, reps: seq<Str>, rep: Str, ops: seq<Op>, handed: seq<Handed>, t: Session,
                        crc: Str -> nat, maxSize: nat)
    requires SessionInv(s) && Next(s, WriteBatch(rep, ops, handed), t, crc, maxSize)
    requires s.vlogs[s.cur].Log() == Concat(Framed(crc, reps))
    ensures t.vlogs[s.cur].Log() == Concat(Framed(crc, reps + [rep]))
    ensures handed == Addresses(WithSizes(ops, Encoded(ops)), s.cur, LogLength(reps) + HEADER + BATCH_HEADER)
  {
    LogLengthIsLength(crc, reps);
    FramesAppend(crc, reps, rep);
  }
}
