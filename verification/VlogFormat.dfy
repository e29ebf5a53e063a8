/** Write batches, and the addresses handed out for the values inside them. */
module VlogFormat {
  import opened Bytes
  import opened Coding

  /** kHeader of a write batch: sequence number (8 bytes) and count (4 bytes). */
  const BATCH_HEADER: nat := 12

  // ----- operations of a write batch

  datatype Op = PutOp(key: Str, value: Str) | DeleteOp(key: Str)

  ghost predicate OpOk(op: Op) {
    |op.key| < MAX_LEN && (op.PutOp? ==> |op.value| < MAX_LEN)
  }

  /** WriteBatch::Put and WriteBatch::Delete; encode_vlog_entry writes the same bytes as a put. */
  ghost function EncodeOp(op: Op): (s: Str)
    ensures s != []
  {
    match op
    case PutOp(k, v) => [1] + Prefixed(k) + Prefixed(v)
    case DeleteOp(k) => [0] + Prefixed(k)
  }

  /** The operation at the start of s and how many bytes it takes. */
  ghost function OpAt(s: Str): (r: Option<(Op, nat)>)
    ensures r.Some? ==> 0 < r.value.1 <= |s|
  {
    if s == [] || s[0] > 1 then None
    else
      var k := PrefixedAt(s[1..]);
      if k.None? then None
      else if s[0] == 0 then Some((DeleteOp(k.value.0), 1 + k.value.1))
      else
        var v := PrefixedAt(s[1 + k.value.1..]);
        if v.None? then None else Some((PutOp(k.value.0, v.value.0), 1 + k.value.1 + v.value.1))
  }

  lemma DeleteRoundTrip(k: Str, rest: Str)
    requires |k| < MAX_LEN
    ensures OpAt(EncodeOp(DeleteOp(k)) + rest) == Some((DeleteOp(k), |EncodeOp(DeleteOp(k))|))
  {
    var s := EncodeOp(DeleteOp(k)) + rest;
    assert s[1..] == Prefixed(k) + rest;
    PrefixedRoundTrip(k, rest);
  }

  lemma PutRoundTrip(k: Str, v: Str, rest: Str)
    requires |k| < MAX_LEN && |v| < MAX_LEN
    ensures OpAt(EncodeOp(PutOp(k, v)) + rest) == Some((PutOp(k, v), |EncodeOp(PutOp(k, v))|))
  {
    var s := EncodeOp(PutOp(k, v)) + rest;
    assert s[1..] == Prefixed(k) + (Prefixed(v) + rest);
    PrefixedRoundTrip(k, Prefixed(v) + rest);
    assert s[1 + |Prefixed(k)|..] == Prefixed(v) + rest;
    PrefixedRoundTrip(v, rest);
  }

  /** Reading an operation gives back what was written and stops right behind it. */
  lemma OpRoundTrip(op: Op, rest: Str)
    requires OpOk(op)
    ensures OpAt(EncodeOp(op) + rest) == Some((op, |EncodeOp(op)|))
  {
    match op
    case PutOp(k, v) => PutRoundTrip(k, v, rest);
    case DeleteOp(k) => DeleteRoundTrip(k, rest);
  }

  ghost function Encoded(ops: seq<Op>): (chunks: seq<Str>)
    ensures |chunks| == |ops| && forall i | 0 <= i < |ops| :: chunks[i] == EncodeOp(ops[i])
  {
    if ops == [] then [] else [EncodeOp(ops[0])] + Encoded(ops[1..])
  }

  /** All operations in s with the bytes each takes, or nothing if s does not split into operations. */
  ghost function ParseOps(s: Str): (r: Option<seq<(Op, nat)>>)
    decreases |s|
  {
    if s == [] then Some([])
    else
      var o := OpAt(s);
      if o.None? then None
      else
        var rest := ParseOps(s[o.value.1..]);
        if rest.None? then None else Some([o.value] + rest.value)
  }

  ghost function WithSizes(ops: seq<Op>, chunks: seq<Str>): (r: seq<(Op, nat)>)
    requires |ops| == |chunks|
    ensures |r| == |ops| && forall i | 0 <= i < |ops| :: r[i] == (ops[i], |chunks[i]|)
  {
    if ops == [] then [] else [(ops[0], |chunks[0]|)] + WithSizes(ops[1..], chunks[1..])
  }

  /** A batch reads back as the operations that were put into it. */
  lemma {:induction false} OpsRoundTrip(ops: seq<Op>)
    requires forall op | op in ops :: OpOk(op)
    ensures ParseOps(Concat(Encoded(ops))) == Some(WithSizes(ops, Encoded(ops)))
  {
    if ops != [] {
      var s, rest := Concat(Encoded(ops)), Concat(Encoded(ops[1..]));
      OpRoundTrip(ops[0], rest);
      assert s == EncodeOp(ops[0]) + rest;
      assert s[|EncodeOp(ops[0])|..] == rest;
      OpsRoundTrip(ops[1..]);
    }
  }

  /** FetchValueFromVlog's Parse, and parse_vlog_key_value: the value of a put. */
  ghost function ParseValue(s: Str): Option<Str> {
    var o := OpAt(s);
    if o.Some? && o.value.0.PutOp? then Some(o.value.0.value) else None
  }

  // ----- addresses

  datatype Addr = Addr(vlog: nat, offset: nat, size: nat)

  /** The address as a memtable value: three varints. */
  ghost function AddrBytes(a: Addr): Str {
    Varint(a.vlog) + Varint(a.offset) + Varint(a.size)
  }

  ghost predicate AddrFits(a: Addr) {
    a.vlog < TWO_TO_64 && a.offset < TWO_TO_64 && a.size < TWO_TO_64
  }

  /** The three fields of an address, each cut to 64 bits. */
  ghost function AddrAt(s: Str): Option<Addr> {
    var vlog := VarintAt(s, 10);
    if vlog.None? then None
    else
      var offset := VarintAt(s[vlog.value.1..], 10);
      if offset.None? then None
      else
        var size := VarintAt(s[vlog.value.1 + offset.value.1..], 10);
        if size.None? then None
        else Some(Addr(vlog.value.0 % TWO_TO_64, offset.value.0 % TWO_TO_64, size.value.0 % TWO_TO_64))
  }

  /** The first step of VlogManager::FetchValueFromVlog. */
  method DecodeAddr(s: Str) returns (r: Option<Addr>)
    ensures r == AddrAt(s)
  {
    var vlog := GetVarint(s, 10);
    if vlog.None? {
      return None;
    }
    var offset := GetVarint(s[vlog.value.1..], 10);
    if offset.None? {
      return None;
    }
    var size := GetVarint(s[vlog.value.1 + offset.value.1..], 10);
    if size.None? {
      return None;
    }
    return Some(Addr(vlog.value.0 % TWO_TO_64, offset.value.0 % TWO_TO_64, size.value.0 % TWO_TO_64));
  }

  /** An address that was handed out decodes to itself. */
  lemma AddrRoundTrip(a: Addr)
    requires AddrFits(a)
    ensures AddrAt(AddrBytes(a)) == Some(a)
  {
    FirstField(a);
    OtherFields(a);
  }

  lemma FirstField(a: Addr)
    requires AddrFits(a)
    ensures VarintAt(AddrBytes(a), 10) == Some((a.vlog, |Varint(a.vlog)|))
  {
    TenBytes();
    VarintRoundTrip(a.vlog, 10, Varint(a.offset) + Varint(a.size));
    assert AddrBytes(a) == Varint(a.vlog) + (Varint(a.offset) + Varint(a.size));
  }

  lemma OtherFields(a: Addr)
    requires AddrFits(a)
    ensures var s, n, m := AddrBytes(a), |Varint(a.vlog)|, |Varint(a.offset)|;
            VarintAt(s[n..], 10) == Some((a.offset, m)) && VarintAt(s[n + m..], 10) == Some((a.size, |Varint(a.size)|))
  {
    var s, n, m := AddrBytes(a), |Varint(a.vlog)|, |Varint(a.offset)|;
    TenBytes();
    assert s[n..] == Varint(a.offset) + Varint(a.size);
    assert s[n + m..] == Varint(a.size) + [];
    VarintRoundTrip(a.offset, 10, Varint(a.size));
    VarintRoundTrip(a.size, 10, []);
  }

  /** What iterating a batch passes to the memtable: an address for a put, nothing for a deletion. */
  datatype Handed = HandedPut(key: Str, addr: Addr) | HandedDelete(key: Str)

  function HandOut(op: Op, addr: Addr): Handed {
    match op
    case PutOp(k, _) => HandedPut(k, addr)
    case DeleteOp(k) => HandedDelete(k)
  }

  /** What is handed out for operations encoded one after another from `offset` of the vlog on. */
  ghost function Addresses(sized: seq<(Op, nat)>, vlog: nat, offset: nat): seq<Handed> {
    if sized == [] then []
    else [HandOut(sized[0].0, Addr(vlog, offset, sized[0].1))] + Addresses(sized[1..], vlog, offset + sized[0].1)
  }

  lemma {:induction false} AddressCount(sized: seq<(Op, nat)>, vlog: nat, offset: nat)
    ensures |Addresses(sized, vlog, offset)| == |sized|
  {
    if sized != [] {
      AddressCount(sized[1..], vlog, offset + sized[0].1);
    }
  }

  lemma {:induction false} AddressAt(sized: seq<(Op, nat)>, vlog: nat, offset: nat, i: nat)
    requires i < |sized|
    ensures i < |Addresses(sized, vlog, offset)|
    ensures Addresses(sized, vlog, offset)[i] == HandOut(sized[i].0, Addr(vlog, offset + Total(sized[..i]), sized[i].1))
  {
    if i > 0 {
      AddressAt(sized[1..], vlog, offset + sized[0].1, i - 1);
      assert sized[..i][1..] == sized[1..][..i - 1];
    }
  }

  lemma {:induction false} TotalIsLength(ops: seq<Op>, chunks: seq<Str>)
    requires |ops| == |chunks|
    ensures Total(WithSizes(ops, chunks)) == |Concat(chunks)|
  {
    if ops != [] {
      TotalIsLength(ops[1..], chunks[1..]);
      assert WithSizes(ops, chunks)[1..] == WithSizes(ops[1..], chunks[1..]);
    }
  }

  /** The address of a put names exactly the bytes of that put, wherever in the log its batch lies. */
  lemma AddressesName(ops: seq<Op>, chunks: seq<Str>, vlog: nat, before: Str, after: Str, i: nat)
    requires |ops| == |chunks| && i < |ops|
    ensures var handed := Addresses(WithSizes(ops, chunks), vlog, |before|);
            i < |handed| && Names(handed[i], ops[i], chunks[i], vlog, before + Concat(chunks) + after)
  {
    AddressAt(WithSizes(ops, chunks), vlog, |before|, i);
    TotalIsLength(ops[..i], chunks[..i]);
    assert WithSizes(ops, chunks)[..i] == WithSizes(ops[..i], chunks[..i]);
    ChunkAt(chunks, before, after, i);
  }

  ghost predicate Names(h: Handed, op: Op, bytes: Str, vlog: nat, log: Str) {
    h.key == op.key &&
    if op.DeleteOp? then h.HandedDelete?
    else h.HandedPut? && h.addr.vlog == vlog && h.addr.offset + h.addr.size <= |log| &&
         log[h.addr.offset..h.addr.offset + h.addr.size] == bytes
  }

  /** How a walk over a batch ends, and what it has handed on by then. */
  datatype Iterated = Corruption(handed: seq<Handed>) | Done(handed: seq<Handed>, head: nat)

  /** The operations before the first place where none can be read. */
  ghost function ReadableOps(s: Str): seq<(Op, nat)>
    decreases |s|
  {
    if s == [] || OpAt(s).None? then [] else [OpAt(s).value] + ReadableOps(s[OpAt(s).value.1..])
  }

  /** The next operation of a batch, as both forms of WriteBatch::Iterate read it. */
  method ReadOp(s: Str) returns (r: Option<(Op, nat)>)
    ensures r == OpAt(s)
  {
    if s == [] || s[0] > 1 {
      return None;
    }
    var k := GetLengthPrefixed(s[1..]);
    if k.None? {
      return None;
    }
    var used := 1 + k.value.1;
    if s[0] == 0 {
      return Some((DeleteOp(k.value.0), used));
    }
    var v := GetLengthPrefixed(s[used..]);
    if v.None? {
      return None;
    }
    return Some((PutOp(k.value.0, v.value.0), used + v.value.1));
  }

  /** GetLengthPrefixedSlice */
  method GetLengthPrefixed(s: Str) returns (r: Option<(Str, nat)>)
    ensures r == PrefixedAt(s)
  {
    var len := GetVarint(s, 5);
    if len.None? {
      return None;
    }
    var n, start := len.value.0 % MAX_LEN, len.value.1;
    if n <= |s| - start {
      return Some((s[start..start + n], start + n));
    }
    return None;
  }

  /** The state of the walk: `done` has been handed out and what `input` parses to is still to come. */
  ghost predicate Walking(all: Option<seq<(Op, nat)>>, vlog: nat, start: nat, done: seq<(Op, nat)>,
                          input: Str, handed: seq<Handed>, head: nat)
  {
    && head == start + Total(done)
    && handed == Addresses(done, vlog, start)
    && all == (if ParseOps(input).None? then None else Some(done + ParseOps(input).value))
  }

  /** Of the readable operations `done` have been read. */
  ghost predicate Reading(readable: seq<(Op, nat)>, done: seq<(Op, nat)>, input: Str) {
    readable == done + ReadableOps(input)
  }

  lemma ReadStart(input: Str)
    ensures Reading(ReadableOps(input), [], input)
  {
    assert [] + ReadableOps(input) == ReadableOps(input);
  }

  lemma ReadStep(readable: seq<(Op, nat)>, done: seq<(Op, nat)>, input: Str)
    requires Reading(readable, done, input)
    ensures input == [] || OpAt(input).None? ==> readable == done
    ensures input != [] && OpAt(input).Some? ==>
              Reading(readable, done + [OpAt(input).value], input[OpAt(input).value.1..])
  {
    if input != [] && OpAt(input).Some? {
      var o, rest := OpAt(input).value, ReadableOps(input[OpAt(input).value.1..]);
      assert done + ([o] + rest) == (done + [o]) + rest;
    }
  }

  lemma WalkStart(s: Str, vlog: nat, start: nat)
    ensures Walking(ParseOps(s), vlog, start, [], s, [], start)
  {
    var all := ParseOps(s);
    assert all.Some? ==> [] + all.value == all.value;
  }

  lemma WalkStep(all: Option<seq<(Op, nat)>>, vlog: nat, start: nat, done: seq<(Op, nat)>,
                 input: Str, handed: seq<Handed>, head: nat)
    requires input != [] && Walking(all, vlog, start, done, input, handed, head)
    ensures OpAt(input).None? ==> all.None?
    ensures OpAt(input).Some? ==>
              var (op, size) := OpAt(input).value;
              Walking(all, vlog, start, done + [(op, size)], input[size..],
                      handed + [HandOut(op, Addr(vlog, head, size))], head + size)
  {
    var o := OpAt(input);
    if o.Some? {
      var rest := ParseOps(input[o.value.1..]);
      AddressesAppend(done, o.value, vlog, start);
      assert rest.Some? ==> done + ([o.value] + rest.value) == (done + [o.value]) + rest.value;
    }
  }

  lemma WalkEnd(all: Option<seq<(Op, nat)>>, vlog: nat, start: nat, done: seq<(Op, nat)>,
                handed: seq<Handed>, head: nat)
    requires Walking(all, vlog, start, done, [], handed, head)
    ensures all == Some(done) && handed == Addresses(done, vlog, start)
  {
    assert done + [] == done;
  }

  lemma {:induction false} AddressesAppend(sized: seq<(Op, nat)>, last: (Op, nat), vlog: nat, offset: nat)
    ensures Addresses(sized + [last], vlog, offset) ==
            Addresses(sized, vlog, offset) + [HandOut(last.0, Addr(vlog, offset + Total(sized), last.1))]
    ensures Total(sized + [last]) == Total(sized) + last.1
  {
    if sized != [] {
      AddressesAppend(sized[1..], last, vlog, offset + sized[0].1);
      assert (sized + [last])[1..] == sized[1..] + [last];
    }
  }

  ghost function Total(sized: seq<(Op, nat)>): nat {
    if sized == [] then 0 else sized[0].1 + Total(sized[1..])
  }

  /**
   WriteBatch::Iterate with addresses: walks the batch, advancing the vlog head past every
   operation, and hands out each put's place in the log. On a well-formed batch the head ends up
   right behind it; on any other, the operations before the first unreadable place have been handed on.
   */
  method IterateAddresses(rep: Str, count: nat, vlog: nat, vlogHead: nat) returns (r: Iterated)
    ensures r.Done? <==> |rep| >= BATCH_HEADER && ParseOps(rep[BATCH_HEADER..]).Some? &&
                         |ParseOps(rep[BATCH_HEADER..]).value| == count
    ensures r.Done? ==> r.head == vlogHead + |rep| &&
                        r.handed == Addresses(ParseOps(rep[BATCH_HEADER..]).value, vlog, vlogHead + BATCH_HEADER)
    ensures r.handed == if |rep| < BATCH_HEADER then []
                        else Addresses(ReadableOps(rep[BATCH_HEADER..]), vlog, vlogHead + BATCH_HEADER)
  {
    if |rep| < BATCH_HEADER {
      return Corruption([]);
    }
    var input, head, found := rep[BATCH_HEADER..], vlogHead + BATCH_HEADER, 0;
    var handed: seq<Handed> := [];
    ghost var all, readable, start := ParseOps(input), ReadableOps(input), head;
    ghost var done: seq<(Op, nat)> := [];
    WalkStart(input, vlog, head);
    ReadStart(input);
    while |input| > 0
      invariant head + |input| == vlogHead + |rep| && found == |done|
      invariant Walking(all, vlog, start, done, input, handed, head) && Reading(readable, done, input)
    {
      var o := ReadOp(input);
      WalkStep(all, vlog, start, done, input, handed, head);
      ReadStep(readable, done, input);
      if o.None? {
        return Corruption(handed);
      }
      handed := handed + [HandOut(o.value.0, Addr(vlog, head, o.value.1))];
      done := done + [o.value];
      head, found, input := head + o.value.1, found + 1, input[o.value.1..];
    }
    WalkEnd(all, vlog, start, done, handed, head);
    ReadStep(readable, done, input);
    if found != count {
      return Corruption(handed);
    }
    return Done(handed, head);
  }

  /** A write batch holding ops; its header is the sequence number and the count. */
  ghost predicate IsBatch(rep: Str, ops: seq<Op>) {
    |rep| >= BATCH_HEADER && rep[BATCH_HEADER..] == Concat(Encoded(ops)) && forall op | op in ops :: OpOk(op)
  }

  /** Iterating a batch that holds ops, with the vlog head where the batch starts. */
  method HandOutAddresses(rep: Str, ghost ops: seq<Op>, count: nat, vlog: nat, vlogHead: nat)
      returns (handed: seq<Handed>, head: nat)
    requires IsBatch(rep, ops) && count == |ops|
    ensures handed == Addresses(WithSizes(ops, Encoded(ops)), vlog, vlogHead + BATCH_HEADER)
    ensures head == vlogHead + |rep|
  {
    OpsRoundTrip(ops);
    var r := IterateAddresses(rep, count, vlog, vlogHead);
    return r.handed, r.head;
  }

  /** WriteBatchInternal::Count */
  ghost function BatchCount(rep: Str): nat
    requires |rep| >= BATCH_HEADER
  {
    FixedValue(rep[8..BATCH_HEADER])
  }
}
