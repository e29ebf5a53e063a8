/** What the log reader returns on any byte prefix of what the log writer wrote. */
module LogRoundTrip {
  import opened Bytes
  import opened Coding
  import opened LogFormat
  import opened LogReader

  ghost predicate Written(frags: seq<Frag>) {
    forall f | f in frags :: FULL <= f.kind <= LAST
  }

  /** The state reads from block offset `off` on, over a prefix of what the writer laid out for frags. */
  ghost predicate Matches(crc: Str -> nat, s: RS, off: nat, frags: seq<Frag>) {
    && off <= BLOCK
    && Fits(off, frags)
    && Written(frags)
    && s.buffer + s.unread <= Layout(crc, off, frags)
    && if s.eof then s.unread == [] && |s.buffer| <= BLOCK - off else |s.buffer| == BLOCK - off
  }

  ghost function Need(off: nat, f: Frag): nat {
    |Pad(off)| + HEADER + |f.data|
  }

  // ----- one fragment

  lemma EmitHeader(crc: Str -> nat, f: Frag)
    requires HEADER + |f.data| <= BLOCK
    ensures var e := Emit(crc, f);
            && Length(e[4], e[5]) == |f.data|
            && e[6] == f.kind
            && e[..4] == Fixed(crc(e[6..]), 4)
            && e[HEADER..] == f.data
  {
    var e := Emit(crc, f);
    assert e[6..] == [f.kind] + f.data;
  }

  lemma EmitParses(crc: Str -> nat, f: Frag, s: RS)
    requires HEADER + |f.data| <= BLOCK && FULL <= f.kind <= LAST
    requires |s.buffer| >= HEADER + |f.data| && s.buffer[..HEADER + |f.data|] == Emit(crc, f)
    ensures ParsePhys(crc, s) == Phys(f.kind, f.data, s.(buffer := s.buffer[HEADER + |f.data|..]), 0)
  {
    EmitHeader(crc, f);
    var b, e, n := s.buffer, Emit(crc, f), HEADER + |f.data|;
    assert b[..n][4] == b[4] && b[..n][5] == b[5] && b[..n][6] == b[6];
    assert b[..4] == e[..4] && b[6..n] == e[6..] && b[HEADER..n] == e[HEADER..];
  }

  lemma TornFragment(crc: Str -> nat, f: Frag, s: RS)
    requires HEADER + |f.data| <= BLOCK && s.eof
    requires HEADER <= |s.buffer| < HEADER + |f.data| && s.buffer == Emit(crc, f)[..|s.buffer|]
    ensures ParsePhys(crc, s).kind == EOF && ParsePhys(crc, s).reports == 0
  {
    EmitHeader(crc, f);
    assert s.buffer[4] == Emit(crc, f)[4] && s.buffer[5] == Emit(crc, f)[5];
  }

  /** What one physical read of a matching state must give. */
  ghost predicate GoodRead(crc: Str -> nat, s: RS, off: nat, frags: seq<Frag>, p: Phys) {
    && p.reports == 0
    && if frags != [] && Need(off, frags[0]) <= s.Left() then
         && p.kind == frags[0].kind && p.data == frags[0].data
         && Matches(crc, p.next, Behind(off, frags[0]), frags[1..])
         && p.next.Left() == s.Left() - Need(off, frags[0])
       else p.kind == EOF
  }

  lemma ConsumedMatches(crc: Str -> nat, s: RS, off: nat, frags: seq<Frag>, n: nat)
    requires Matches(crc, s, off, frags) && frags != [] && off + HEADER <= BLOCK
    requires n == HEADER + |frags[0].data| <= |s.buffer|
    ensures s.buffer[..n] == Emit(crc, frags[0])
    ensures Matches(crc, s.(buffer := s.buffer[n..]), Behind(off, frags[0]), frags[1..])
  {
    var whole, e, rest := s.buffer + s.unread, Emit(crc, frags[0]), Layout(crc, Behind(off, frags[0]), frags[1..]);
    LayoutStep(crc, off, frags);
    assert Pad(off) + e == e;
    assert whole == (e + rest)[..|whole|];
    assert s.buffer[..n] == whole[..n] == e;
    assert s.buffer[n..] + s.unread == whole[n..] == rest[..|whole| - n];
  }

  lemma ReadInBlock(crc: Str -> nat, s: RS, off: nat, frags: seq<Frag>)
    requires Matches(crc, s, off, frags) && frags != [] && off + HEADER <= BLOCK
    requires |s.buffer| >= HEADER
    ensures GoodRead(crc, s, off, frags, ParsePhys(crc, s))
  {
    var f := frags[0];
    var n := HEADER + |f.data|;
    assert f in frags;
    if n <= |s.buffer| {
      ConsumedMatches(crc, s, off, frags, n);
      EmitParses(crc, f, s);
    } else {
      LayoutStep(crc, off, frags);
      assert Pad(off) + Emit(crc, f) == Emit(crc, f);
      assert s.buffer + s.unread == s.buffer;
      assert s.buffer == Emit(crc, f)[..|s.buffer|];
      TornFragment(crc, f, s);
    }
  }

  lemma LayoutBehindPad(crc: Str -> nat, off: nat, frags: seq<Frag>)
    requires frags != [] && off <= BLOCK < off + HEADER
    ensures Layout(crc, off, frags) == Pad(off) + Layout(crc, 0, frags) && Behind(0, frags[0]) == Behind(off, frags[0])
  {
    LayoutStep(crc, off, frags);
    LayoutStep(crc, 0, frags);
    Associate(Pad(off), Pad(0), Emit(crc, frags[0]), Layout(crc, Behind(0, frags[0]), frags[1..]));
  }

  lemma Associate(pad: Str, none: Str, e: Str, rest: Str)
    requires none == []
    ensures (pad + e) + rest == pad + ((none + e) + rest)
  {
  }

  lemma PrefixBehind(a: Str, b: Str, pad: Str, body: Str)
    requires a + b <= pad + body && |a| == |pad|
    ensures b <= body
  {
    assert b == (a + b)[|a|..];
    assert (pad + body)[|pad|..] == body;
  }

  /** Skipping the trailer of a block and fetching the next block. */
  lemma RefillMatches(crc: Str -> nat, s: RS, off: nat, frags: seq<Frag>)
    requires Matches(crc, s, off, frags) && |s.buffer| < HEADER && !s.eof && frags != []
    ensures Matches(crc, Refilled(s), 0, frags)
    ensures Refilled(s).Left() == s.Left() - |Pad(off)| && |Pad(off)| == |s.buffer|
    ensures Behind(0, frags[0]) == Behind(off, frags[0])
  {
    LayoutBehindPad(crc, off, frags);
    PrefixBehind(s.buffer, s.unread, Pad(off), Layout(crc, 0, frags));
    var r := Refilled(s);
    assert r.buffer + r.unread == s.unread;
  }

  /** A physical read returns the next fragment if it is there completely, and the end of the file otherwise. */
  lemma ReadPhysMatches(crc: Str -> nat, s: RS, off: nat, frags: seq<Frag>)
    requires Matches(crc, s, off, frags)
    ensures GoodRead(crc, s, off, frags, ReadPhys(crc, s))
  {
    if frags == [] {
      assert s.buffer + s.unread == [];
    } else if |s.buffer| >= HEADER {
      ReadInBlock(crc, s, off, frags);
    } else if !s.eof {
      RefillMatches(crc, s, off, frags);
      if |Refilled(s).buffer| >= HEADER {
        ReadInBlock(crc, Refilled(s), 0, frags);
      }
    }
  }

  // ----- one record

  ghost function LayoutLength(off: nat, frags: seq<Frag>): nat
    decreases |frags|
  {
    if frags == [] then 0 else Need(off, frags[0]) + LayoutLength(Behind(off, frags[0]), frags[1..])
  }

  lemma {:induction false} LayoutHasLength(crc: Str -> nat, off: nat, frags: seq<Frag>)
    ensures |Layout(crc, off, frags)| == LayoutLength(off, frags)
    decreases |frags|
  {
    if frags != [] {
      LayoutHasLength(crc, Behind(off, frags[0]), frags[1..]);
    }
  }

  /** What reading one record of a matching state must give. */
  ghost predicate GoodRecord(crc: Str -> nat, s: RS, off: nat, frags: seq<Frag>, more: seq<Frag>, record: Str,
                             reports: nat, l: Logical) {
    && l.reports == reports
    && if LayoutLength(off, frags) <= s.Left() then
         && l.record == Some(record)
         && Matches(crc, l.next, EndOffset(off, frags), more)
         && l.next.Left() == s.Left() - LayoutLength(off, frags)
       else l.record == None
  }

  lemma TurnForWritten(data: Str, begin: bool, end: bool, scratch: Str)
    requires begin ==> scratch == []
    ensures TurnFor(KindOf(begin, end), data, !begin, scratch) ==
            if end then Done(Some(scratch + data), 0) else More(true, scratch + data, 0)
  {
    assert begin ==> scratch + data == data;
  }

  lemma LogicalStep(crc: Str -> nat, s: RS, inside: bool, scratch: Str, reports: nat)
    requires ReadPhys(crc, s).reports == 0
    ensures var p := ReadPhys(crc, s);
            ReadLogical(crc, s, inside, scratch, reports) ==
            match TurnFor(p.kind, p.data, inside, scratch)
            case Done(record, n) => Logical(record, p.next, reports + n)
            case More(i, t, n) => ReadLogical(crc, p.next, i, t, reports + n)
  {
  }

  lemma EofTurn(crc: Str -> nat, s: RS, inside: bool, scratch: Str, reports: nat)
    requires ReadPhys(crc, s).reports == 0 && ReadPhys(crc, s).kind == EOF
    ensures ReadLogical(crc, s, inside, scratch, reports) == Logical(None, ReadPhys(crc, s).next, reports)
  {
    LogicalStep(crc, s, inside, scratch, reports);
  }

  lemma FragmentTurn(crc: Str -> nat, s: RS, begin: bool, scratch: Str, reports: nat, p: Phys, end: bool)
    requires p == ReadPhys(crc, s) && p.reports == 0 && (begin ==> scratch == []) && p.kind == KindOf(begin, end)
    ensures ReadLogical(crc, s, !begin, scratch, reports) ==
            if end then Logical(Some(scratch + p.data), p.next, reports)
            else ReadLogical(crc, p.next, true, scratch + p.data, reports)
  {
    TurnForWritten(p.data, begin, end, scratch);
    LogicalStep(crc, s, !begin, scratch, reports);
  }

  lemma WrittenTurn(crc: Str -> nat, s: RS, begin: bool, scratch: Str, reports: nat, p: Phys, end: bool)
    requires p == ReadPhys(crc, s) && p.reports == 0 && (begin ==> scratch == [])
    ensures p.kind == EOF ==> ReadLogical(crc, s, !begin, scratch, reports) == Logical(None, p.next, reports)
    ensures p.kind == KindOf(begin, end) ==>
              ReadLogical(crc, s, !begin, scratch, reports) ==
              if end then Logical(Some(scratch + p.data), p.next, reports)
              else ReadLogical(crc, p.next, true, scratch + p.data, reports)
  {
    if p.kind == EOF {
      EofTurn(crc, s, !begin, scratch, reports);
    } else if p.kind == KindOf(begin, end) {
      FragmentTurn(crc, s, begin, scratch, reports, p, end);
    }
  }

  lemma LastFragment(crc: Str -> nat, s: RS, off: nat, f: Frag, begin: bool, more: seq<Frag>, scratch: Str,
                     reports: nat)
    requires Matches(crc, s, off, [f] + more) && f.kind == KindOf(begin, true) && (begin ==> scratch == [])
    ensures GoodRecord(crc, s, off, [f], more, scratch + f.data, reports, ReadLogical(crc, s, !begin, scratch, reports))
  {
    assert ([f] + more)[1..] == more;
    ReadPhysMatches(crc, s, off, [f] + more);
    WrittenTurn(crc, s, begin, scratch, reports, ReadPhys(crc, s), true);
    OneFragment(off, f);
  }

  lemma OneFragment(off: nat, f: Frag)
    ensures LayoutLength(off, [f]) == Need(off, f) && EndOffset(off, [f]) == Behind(off, f)
  {
    assert [f][1..] == [];
  }

  /** A fragment that is not the last: either it is cut off or reading goes on behind it. */
  lemma EarlierFragment(crc: Str -> nat, s: RS, off: nat, f: Frag, begin: bool, rest: seq<Frag>, scratch: Str,
                        reports: nat)
    requires Matches(crc, s, off, [f] + rest) && f.kind == KindOf(begin, false) && (begin ==> scratch == [])
    ensures var p, l := ReadPhys(crc, s), ReadLogical(crc, s, !begin, scratch, reports);
            if Need(off, f) <= s.Left() then
              && l == ReadLogical(crc, p.next, true, scratch + f.data, reports)
              && Matches(crc, p.next, Behind(off, f), rest)
              && p.next.Left() == s.Left() - Need(off, f)
            else l.record == None && l.reports == reports
  {
    assert ([f] + rest)[1..] == rest;
    ReadPhysMatches(crc, s, off, [f] + rest);
    WrittenTurn(crc, s, begin, scratch, reports, ReadPhys(crc, s), false);
  }

  /** The rest of a record whose earlier part is in scratch (nothing, at its beginning). */
  lemma {:induction false} ReadRecordMatches(crc: Str -> nat, s: RS, off: nat, data: Str, begin: bool,
                                             more: seq<Frag>, scratch: Str, reports: nat)
    requires Matches(crc, s, off, Fragments(off, data, begin) + more)
    requires begin ==> scratch == []
    ensures GoodRecord(crc, s, off, Fragments(off, data, begin), more, scratch + data, reports,
                       ReadLogical(crc, s, !begin, scratch, reports))
    decreases |data|, Base(off)
  {
    var frags := Fragments(off, data, begin);
    var avail := BLOCK - Base(off) - HEADER;
    if |data| <= avail {
      LastFragment(crc, s, off, frags[0], begin, more, scratch, reports);
    } else {
      var f, rest := frags[0], Fragments(BLOCK, data[avail..], false);
      assert frags == [f] + rest && frags + more == [f] + (rest + more);
      EarlierFragment(crc, s, off, f, begin, rest + more, scratch, reports);
      var p, l := ReadPhys(crc, s), ReadLogical(crc, s, !begin, scratch, reports);
      if Need(off, f) <= s.Left() {
        assert scratch + f.data + data[avail..] == scratch + data;
        ReadRecordMatches(crc, p.next, BLOCK, data[avail..], false, more, scratch + f.data, reports);
      }
      GoodBehind(crc, s, off, f, rest, more, scratch + data, reports, p.next, l);
    }
  }

  /** A record that is read well behind its first fragment is read well. */
  lemma GoodBehind(crc: Str -> nat, s: RS, off: nat, f: Frag, rest: seq<Frag>, more: seq<Frag>, record: Str,
                   reports: nat, next: RS, l: Logical)
    requires if Need(off, f) <= s.Left() then
               next.Left() == s.Left() - Need(off, f) &&
               GoodRecord(crc, next, Behind(off, f), rest, more, record, reports, l)
             else l.record == None && l.reports == reports
    ensures GoodRecord(crc, s, off, [f] + rest, more, record, reports, l)
  {
    assert ([f] + rest)[1..] == rest;
    assert LayoutLength(off, [f] + rest) == Need(off, f) + LayoutLength(Behind(off, f), rest);
  }

  // ----- all records

  /** The fragments of a list of records written one after another. */
  ghost function AllFragments(off: nat, records: seq<Str>): seq<Frag>
    decreases |records|
  {
    if records == [] then []
    else
      var first := Fragments(off, records[0], true);
      first + AllFragments(EndOffset(off, first), records[1..])
  }

  /** How many of the records lie wholly in the first n bytes. */
  ghost function Contained(off: nat, records: seq<Str>, n: nat): (k: nat)
    ensures k <= |records|
    decreases |records|
  {
    if records == [] then 0
    else
      var first := Fragments(off, records[0], true);
      var size := LayoutLength(off, first);
      if n < size then 0 else 1 + Contained(EndOffset(off, first), records[1..], n - size)
  }

  datatype Pass = Pass(records: seq<Str>, reports: nat)

  /** Reading until there is no further record. */
  ghost function ReadAllFrom(crc: Str -> nat, s: RS, reports: nat): Pass
    decreases s.Left()
  {
    var l := ReadLogical(crc, s, false, [], reports);
    if l.record.None? then Pass([], l.reports)
    else
      var rest := ReadAllFrom(crc, l.next, l.reports);
      Pass([l.record.value] + rest.records, rest.reports)
  }

  lemma NothingLeft(crc: Str -> nat, s: RS, off: nat, reports: nat)
    requires Matches(crc, s, off, [])
    ensures ReadAllFrom(crc, s, reports) == Pass([], reports)
  {
    ReadPhysMatches(crc, s, off, []);
  }

  lemma {:induction false} ReadAllMatches(crc: Str -> nat, s: RS, off: nat, records: seq<Str>, reports: nat)
    requires Matches(crc, s, off, AllFragments(off, records))
    ensures ReadAllFrom(crc, s, reports) == Pass(records[..Contained(off, records, s.Left())], reports)
    decreases |records|
  {
    if records == [] {
      NothingLeft(crc, s, off, reports);
    } else {
      var first := Fragments(off, records[0], true);
      var end, l := EndOffset(off, first), ReadLogical(crc, s, false, [], reports);
      assert [] + records[0] == records[0];
      ReadRecordMatches(crc, s, off, records[0], true, AllFragments(end, records[1..]), [], reports);
      if l.record.Some? {
        ReadAllMatches(crc, l.next, end, records[1..], reports);
        PassStep(crc, s, off, records, reports, Contained(end, records[1..], l.next.Left()));
      }
    }
  }

  lemma PassStep(crc: Str -> nat, s: RS, off: nat, records: seq<Str>, reports: nat, k: nat)
    requires records != [] && k < |records|
    requires var l := ReadLogical(crc, s, false, [], reports);
             l.record == Some(records[0]) && ReadAllFrom(crc, l.next, l.reports) == Pass(records[1..][..k], reports)
    ensures ReadAllFrom(crc, s, reports) == Pass(records[..k + 1], reports)
  {
    assert records[..k + 1] == [records[0]] + records[1..][..k];
  }

  /**
   For any list of records and any byte prefix of the file they were written to, the reader returns
   exactly the records wholly contained in it and reports no corruption.
   */
  lemma ReadsBackPrefix(crc: Str -> nat, records: seq<Str>, file: Str)
    requires file <= Layout(crc, BLOCK, AllFragments(BLOCK, records))
    ensures ReadAllFrom(crc, RS([], file, false), 0) == Pass(records[..Contained(BLOCK, records, |file|)], 0)
  {
    AllFragmentsFit(BLOCK, records);
    assert [] + file == file;
    ReadAllMatches(crc, RS([], file, false), BLOCK, records, 0);
  }

  lemma {:induction false} FragmentsWritten(off: nat, data: Str, begin: bool)
    ensures Written(Fragments(off, data, begin))
    decreases |data|, Base(off)
  {
    var avail := BLOCK - Base(off) - HEADER;
    if |data| > avail {
      FragmentsWritten(BLOCK, data[avail..], false);
    }
  }

  lemma {:induction false} FitsConcat(off: nat, a: seq<Frag>, b: seq<Frag>)
    requires Fits(off, a) && Fits(EndOffset(off, a), b)
    ensures Fits(off, a + b)
    decreases |a|
  {
    if a == [] {
      assert a + b == b;
    } else {
      FitsConcat(Behind(off, a[0]), a[1..], b);
      assert (a + b)[1..] == a[1..] + b;
    }
  }

  lemma {:induction false} AllFragmentsFit(off: nat, records: seq<Str>)
    requires off <= BLOCK
    ensures Fits(off, AllFragments(off, records)) && Written(AllFragments(off, records))
    decreases |records|
  {
    if records != [] {
      var first := Fragments(off, records[0], true);
      FragmentsFit(off, records[0], true);
      FragmentsWritten(off, records[0], true);
      AllFragmentsFit(EndOffset(off, first), records[1..]);
      FitsConcat(off, first, AllFragments(EndOffset(off, first), records[1..]));
    }
  }

  // ----- writing, reopening, reading

  lemma {:induction false} LayoutConcat(crc: Str -> nat, off: nat, a: seq<Frag>, b: seq<Frag>)
    ensures Layout(crc, off, a + b) == Layout(crc, off, a) + Layout(crc, EndOffset(off, a), b)
    ensures EndOffset(off, a + b) == EndOffset(EndOffset(off, a), b)
    decreases |a|
  {
    if a == [] {
      assert a + b == b;
    } else {
      assert (a + b)[1..] == a[1..] + b;
      LayoutConcat(crc, Behind(off, a[0]), a[1..], b);
      LayoutStep(crc, off, a + b);
      LayoutStep(crc, off, a);
    }
  }

  lemma {:induction false} AllFragmentsAppend(off: nat, records: seq<Str>, r: Str)
    ensures AllFragments(off, records + [r]) ==
            AllFragments(off, records) + Fragments(EndOffset(off, AllFragments(off, records)), r, true)
    decreases |records|
  {
    if records == [] {
      assert (records + [r])[1..] == [];
    } else {
      assert (records + [r])[1..] == records[1..] + [r];
      var first := Fragments(off, records[0], true);
      var end := EndOffset(off, first);
      AllFragmentsAppend(end, records[1..], r);
      LayoutConcat(_ => 0, off, first, AllFragments(end, records[1..]));
    }
  }

  /** An uncut log contains all its records. */
  lemma {:induction false} AllContained(crc: Str -> nat, off: nat, records: seq<Str>)
    ensures Contained(off, records, |Layout(crc, off, AllFragments(off, records))|) == |records|
    decreases |records|
  {
    if records != [] {
      var first := Fragments(off, records[0], true);
      var end := EndOffset(off, first);
      AllContained(crc, end, records[1..]);
      LayoutConcat(crc, off, first, AllFragments(end, records[1..]));
      LayoutHasLength(crc, off, first);
    }
  }

  /** How many block boundaries are passed. */
  ghost function Boundaries(off: nat, frags: seq<Frag>): nat
    decreases |frags|
  {
    if frags == [] then 0
    else (if off <= BLOCK < off + HEADER then 1 else 0) + Boundaries(Behind(off, frags[0]), frags[1..])
  }

  lemma {:induction false} PositionInBlock(off: nat, frags: seq<Frag>)
    requires off <= BLOCK && Fits(off, frags)
    ensures off + LayoutLength(off, frags) == EndOffset(off, frags) + Boundaries(off, frags) * BLOCK
    ensures EndOffset(off, frags) <= BLOCK
    decreases |frags|
  {
    if frags != [] {
      PositionInBlock(Behind(off, frags[0]), frags[1..]);
    }
  }

  lemma {:induction false} WholeBlocks(n: nat, k: nat)
    ensures (n + k * BLOCK) % BLOCK == n % BLOCK
  {
    if k > 0 {
      WholeBlocks(n, k - 1);
      assert n + k * BLOCK == (n + (k - 1) * BLOCK) + BLOCK;
    }
  }

  ghost function LogBytes(crc: Str -> nat, records: seq<Str>): Str {
    Layout(crc, BLOCK, AllFragments(BLOCK, records))
  }

  lemma SameOffset(crc: Str -> nat, off: nat, end: nat, r: Str)
    requires off <= BLOCK && end <= BLOCK && off % BLOCK == end % BLOCK
    ensures var f, g := Fragments(off, r, true), Fragments(end, r, true);
            f == g && Layout(crc, off, f) == Layout(crc, end, g) && EndOffset(off, f) == EndOffset(end, g)
  {
    SameInBlock(off, end);
    BlockBoundary(crc, Fragments(off, r, true), r, true);
  }

  lemma SameInBlock(off: nat, end: nat)
    requires off <= BLOCK && end <= BLOCK && off % BLOCK == end % BLOCK
    ensures off == end || (off == 0 && end == BLOCK) || (off == BLOCK && end == 0)
  {
  }

  /** Appending a record at the block offset that follows from the file's length. */
  lemma AppendRecord(crc: Str -> nat, records: seq<Str>, r: Str, off: nat)
    requires off <= BLOCK && off % BLOCK == |LogBytes(crc, records)| % BLOCK
    ensures var frags := Fragments(off, r, true);
            && LogBytes(crc, records + [r]) == LogBytes(crc, records) + Layout(crc, off, frags)
            && EndOffset(off, frags) <= BLOCK
            && EndOffset(off, frags) % BLOCK == |LogBytes(crc, records + [r])| % BLOCK
  {
    var all := AllFragments(BLOCK, records);
    var end := EndOffset(BLOCK, all);
    LogPosition(crc, records);
    LogPosition(crc, records + [r]);
    SameOffset(crc, off, end, r);
    AllFragmentsAppend(BLOCK, records, r);
    LayoutConcat(crc, BLOCK, all, Fragments(end, r, true));
  }

  lemma LogPosition(crc: Str -> nat, records: seq<Str>)
    ensures var end := EndOffset(BLOCK, AllFragments(BLOCK, records));
            end <= BLOCK && end % BLOCK == |LogBytes(crc, records)| % BLOCK
  {
    var all := AllFragments(BLOCK, records);
    AllFragmentsFit(BLOCK, records);
    PositionInBlock(BLOCK, all);
    LayoutHasLength(crc, BLOCK, all);
    WholeBlocks(EndOffset(BLOCK, all), Boundaries(BLOCK, all));
    WholeBlocks(LayoutLength(BLOCK, all), 1);
  }

  /** A writer opened on an existing log of any length continues it. */
  method AppendAll(crc: Str -> nat, ghost before: seq<Str>, file: Str, records: seq<Str>) returns (out: Str)
    requires file == LogBytes(crc, before)
    ensures out == LogBytes(crc, before + records)
  {
    var writer := new Writer(file);
    assert before + records[..0] == before;
    for k := 0 to |records|
      invariant fresh(writer) && writer.Valid() && writer.dest == LogBytes(crc, before + records[..k])
      invariant writer.blockOffset % BLOCK == |writer.dest| % BLOCK
    {
      AppendRecord(crc, before + records[..k], records[k], writer.blockOffset);
      assert before + records[..k] + [records[k]] == before + records[..k + 1];
      writer.AddRecord(crc, records[k]);
    }
    assert records[..|records|] == records;
    out := writer.dest;
  }

  /** What was written, in one session or several, is what is read. */
  lemma ReadsBackAll(crc: Str -> nat, records: seq<Str>)
    ensures ReadAllFrom(crc, RS([], LogBytes(crc, records), false), 0) == Pass(records, 0)
  {
    ReadsBackPrefix(crc, records, LogBytes(crc, records));
    AllContained(crc, BLOCK, records);
    assert records[..|records|] == records;
  }

  /** Reading a whole file, however it came about. */
  method ReadAll(crc: Str -> nat, file: Str) returns (records: seq<Str>, reports: nat)
    ensures ReadAllFrom(crc, RS([], file, false), 0) == Pass(records, reports)
  {
    var reader := new Reader(file);
    records := [];
    ghost var all := ReadAllFrom(crc, reader.Abs(), 0);
    assert [] + all.records == all.records;
    while true
      invariant fresh(reader)
      invariant all == var rest := ReadAllFrom(crc, reader.Abs(), reader.reports);
                       Pass(records + rest.records, rest.reports)
      decreases reader.Abs().Left()
    {
      PassTurn(crc, reader.Abs(), reader.reports, records);
      var record := reader.ReadRecord(crc);
      if record.None? {
        return records, reader.reports;
      }
      records := records + [record.value];
    }
  }

  /** What reading on gives behind the records there are already, one record further. */
  lemma PassTurn(crc: Str -> nat, s: RS, reports: nat, records: seq<Str>)
    ensures var all, l := ReadAllFrom(crc, s, reports), ReadLogical(crc, s, false, [], reports);
            if l.record.None? then Pass(records + all.records, all.reports) == Pass(records, l.reports)
            else
              var rest := ReadAllFrom(crc, l.next, l.reports);
              Pass(records + all.records, all.reports) ==
              Pass((records + [l.record.value]) + rest.records, rest.reports)
  {
    var l := ReadLogical(crc, s, false, [], reports);
    assert records + [] == records;
    if l.record.Some? {
      var rest := ReadAllFrom(crc, l.next, l.reports);
      assert records + ([l.record.value] + rest.records) == (records + [l.record.value]) + rest.records;
    }
  }
}
