/** The frame around every record of a value log, and what a possibly cut log still holds. */
module VlogFrames {
  import opened Bytes
  import opened Coding

  /** kVHeaderSize: checksum (4 bytes) and length (8 bytes). */
  const HEADER: nat := 12

  // ----- concatenations

  /** How many whole chunks the first n bytes of their concatenation contain. */
  ghost function WholeChunks(chunks: seq<Str>, n: nat): (k: nat)
    ensures k <= |chunks|
  {
    if chunks == [] || n < |chunks[0]| then 0 else 1 + WholeChunks(chunks[1..], n - |chunks[0]|)
  }

  /** That many fit into n bytes, and no more. */
  lemma {:induction false} WholeChunksFit(chunks: seq<Str>, n: nat)
    ensures var k := WholeChunks(chunks, n);
            |Concat(chunks[..k])| <= n && (k < |chunks| ==> n < |Concat(chunks[..k + 1])|)
  {
    if chunks == [] || n < |chunks[0]| {
      assert chunks != [] ==> chunks[..1] == [chunks[0]] && chunks[..1][1..] == [];
    } else {
      WholeChunksFit(chunks[1..], n - |chunks[0]|);
      var k := WholeChunks(chunks[1..], n - |chunks[0]|);
      assert chunks[..k + 1][1..] == chunks[1..][..k];
      assert k < |chunks[1..]| ==> chunks[..k + 2][1..] == chunks[1..][..k + 1];
    }
  }

  lemma PrefixOfConcat(first: Str, rest: seq<Str>, n: nat)
    requires n <= |first| + |Concat(rest)|
    ensures var s, k := Concat([first] + rest), WholeChunks([first] + rest, n);
            if n < |first| then n <= |s| && s[..n] == first[..n] && k == 0
            else n <= |s| && s[..n] == first + Concat(rest)[..n - |first|] && k == 1 + WholeChunks(rest, n - |first|)
  {
    assert ([first] + rest)[1..] == rest;
  }

  // ----- frames

  /** A log record as VWriter::AddRecord writes it. */
  ghost function Frame(crc: Str -> nat, payload: Str): (s: Str)
    ensures |s| == HEADER + |payload|
  {
    Fixed(crc(payload), 4) + Fixed(|payload|, 8) + payload
  }

  /** The payload of the frame at the start of s, if the frame is complete and its checksum fits. */
  ghost function FrameAt(crc: Str -> nat, s: Str): (r: Option<Str>)
    ensures r.Some? ==> HEADER + |r.value| <= |s|
  {
    if |s| < HEADER then None
    else
      var n := FixedValue(s[4..HEADER]);
      if n > |s| - HEADER || s[..4] != Fixed(crc(s[HEADER..HEADER + n]), 4) then None
      else Some(s[HEADER..HEADER + n])
  }

  lemma FrameHeader(crc: Str -> nat, payload: Str)
    requires |payload| < TWO_TO_64
    ensures Frame(crc, payload)[..4] == Fixed(crc(payload), 4)
    ensures FixedValue(Frame(crc, payload)[4..HEADER]) == |payload|
    ensures Frame(crc, payload)[HEADER..] == payload
  {
    EightBytes();
    FixedRoundTrip(|payload|, 8);
    var s := Frame(crc, payload);
    assert s[..4] == Fixed(crc(payload), 4);
    assert s[4..HEADER] == Fixed(|payload|, 8);
    assert s[HEADER..] == payload;
  }

  /** A complete frame reads back, whatever follows it. */
  lemma FrameRoundTrip(crc: Str -> nat, payload: Str, rest: Str)
    requires |payload| < TWO_TO_64
    ensures FrameAt(crc, Frame(crc, payload) + rest) == Some(payload)
  {
    FrameHeader(crc, payload);
    var f := Frame(crc, payload);
    var s := f + rest;
    assert s[..4] == f[..4] && s[4..HEADER] == f[4..HEADER];
    assert s[HEADER..HEADER + |payload|] == f[HEADER..];
  }

  /** A frame cut short does not read as a frame. */
  lemma TornFrame(crc: Str -> nat, payload: Str, n: nat)
    requires |payload| < TWO_TO_64 && n < HEADER + |payload|
    ensures FrameAt(crc, Frame(crc, payload)[..n]) == None
  {
    FrameHeader(crc, payload);
    var f := Frame(crc, payload);
    if n >= HEADER {
      assert f[..n][4..HEADER] == f[4..HEADER];
    }
  }

  /** All frames from the start of s on, up to the first that is incomplete or damaged. */
  ghost function FramesOf(crc: Str -> nat, s: Str): seq<Str>
    decreases |s|
  {
    var f := FrameAt(crc, s);
    if f.None? then [] else [f.value] + FramesOf(crc, s[HEADER + |f.value|..])
  }

  ghost function Framed(crc: Str -> nat, payloads: seq<Str>): (r: seq<Str>)
    ensures |r| == |payloads| && forall i | 0 <= i < |r| :: r[i] == Frame(crc, payloads[i])
  {
    if payloads == [] then [] else [Frame(crc, payloads[0])] + Framed(crc, payloads[1..])
  }

  /** The length of a log of these records; the payload of the next one goes HEADER bytes behind it. */
  ghost function LogLength(payloads: seq<Str>): nat {
    if payloads == [] then 0
    else LogLength(payloads[..|payloads| - 1]) + HEADER + |payloads[|payloads| - 1]|
  }

  lemma FramesStep(crc: Str -> nat, payload: Str, rest: Str)
    requires |payload| < TWO_TO_64
    ensures FramesOf(crc, Frame(crc, payload) + rest) == [payload] + FramesOf(crc, rest)
  {
    FrameRoundTrip(crc, payload, rest);
    assert (Frame(crc, payload) + rest)[HEADER + |payload|..] == rest;
  }

  /** On any byte prefix of a log, exactly the records wholly contained in it are found. */
  lemma {:induction false} FramesOfPrefix(crc: Str -> nat, payloads: seq<Str>, n: nat)
    requires forall p | p in payloads :: |p| < TWO_TO_64
    requires n <= |Concat(Framed(crc, payloads))|
    ensures FramesOf(crc, Concat(Framed(crc, payloads))[..n]) == payloads[..WholeChunks(Framed(crc, payloads), n)]
  {
    if payloads != [] {
      var p, more := payloads[0], payloads[1..];
      FirstFrame(crc, p, more, payloads, n);
      if HEADER + |p| <= n {
        var m := n - HEADER - |p|;
        FramesOfPrefix(crc, more, m);
        OneMore(payloads, WholeChunks(Framed(crc, more), m));
      }
    }
  }

  lemma OneMore(payloads: seq<Str>, k: nat)
    requires payloads != [] && k < |payloads|
    ensures [payloads[0]] + payloads[1..][..k] == payloads[..k + 1]
  {}

  /** The first frame of a cut log, and what follows it. */
  lemma FirstFrame(crc: Str -> nat, p: Str, more: seq<Str>, payloads: seq<Str>, n: nat)
    requires payloads != [] && payloads[0] == p && payloads[1..] == more
    requires |p| < TWO_TO_64 && n <= |Concat(Framed(crc, payloads))|
    ensures var cut, rest := Concat(Framed(crc, payloads))[..n], Framed(crc, more);
            var k := WholeChunks(Framed(crc, payloads), n);
            if n < HEADER + |p| then FramesOf(crc, cut) == [] && k == 0
            else
              var m := n - HEADER - |p|;
              m <= |Concat(rest)| && k == 1 + WholeChunks(rest, m) &&
              FramesOf(crc, cut) == [p] + FramesOf(crc, Concat(rest)[..m])
  {
    var f, rest := Frame(crc, p), Framed(crc, more);
    assert Framed(crc, payloads) == [f] + rest && ([f] + rest)[1..] == rest;
    PrefixOfConcat(f, rest, n);
    if n < |f| {
      TornFrame(crc, p, n);
    } else {
      FramesStep(crc, p, Concat(rest)[..n - |f|]);
    }
  }

  lemma FramesAppend(crc: Str -> nat, payloads: seq<Str>, last: Str)
    ensures Concat(Framed(crc, payloads + [last])) == Concat(Framed(crc, payloads)) + Frame(crc, last)
  {
    ConcatAppend(Framed(crc, payloads), Frame(crc, last));
    assert Framed(crc, payloads + [last]) == Framed(crc, payloads) + [Frame(crc, last)];
  }

  lemma {:induction false} LogLengthIsLength(crc: Str -> nat, payloads: seq<Str>)
    ensures LogLength(payloads) == |Concat(Framed(crc, payloads))|
  {
    if payloads != [] {
      var front, last := payloads[..|payloads| - 1], payloads[|payloads| - 1];
      assert payloads == front + [last];
      LogLengthIsLength(crc, front);
      FramesAppend(crc, front, last);
    }
  }

  lemma FramedPrefix(crc: Str -> nat, payloads: seq<Str>, k: nat)
    requires k <= |payloads|
    ensures Framed(crc, payloads[..k]) == Framed(crc, payloads)[..k]
  {}

  lemma {:induction false} AllWhole(chunks: seq<Str>)
    ensures WholeChunks(chunks, |Concat(chunks)|) == |chunks|
  {
    if chunks != [] {
      AllWhole(chunks[1..]);
    }
  }

  /** An uncut log gives back all its records. */
  lemma WholeLog(crc: Str -> nat, payloads: seq<Str>)
    requires forall p | p in payloads :: |p| < TWO_TO_64
    ensures FramesOf(crc, Concat(Framed(crc, payloads))) == payloads
    ensures LogLength(payloads) == |Concat(Framed(crc, payloads))|
  {
    var log := Concat(Framed(crc, payloads));
    FramesOfPrefix(crc, payloads, |log|);
    AllWhole(Framed(crc, payloads));
    LogLengthIsLength(crc, payloads);
    assert log[..|log|] == log && payloads[..|payloads|] == payloads;
  }
}
