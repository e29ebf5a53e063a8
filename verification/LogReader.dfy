/** Reading a record log back, block by block. */
module LogReader {
  import opened Bytes
  import opened Coding
  import opened LogFormat

  /** The reader's state: the unparsed part of the current block, the unread part of the file. */
  datatype RS = RS(buffer: Str, unread: Str, eof: bool) {
    ghost function Left(): nat {
      |buffer| + |unread|
    }
  }

  /** What one physical read gives, and how many corruptions it reports. */
  datatype Phys = Phys(kind: Byte, data: Str, next: RS, reports: nat)

  /** A block is fetched only when the buffer cannot hold a header and the last fetch was full. */
  ghost function Refilled(s: RS): (r: RS)
    ensures r.Left() <= s.Left()
  {
    if |s.buffer| >= HEADER || s.eof then s
    else if |s.unread| < BLOCK then RS(s.unread, [], true)
    else RS(s.unread[..BLOCK], s.unread[BLOCK..], false)
  }

  function Length(low: nat, high: nat): nat {
    low + 256 * high
  }

  ghost function ParsePhys(crc: Str -> nat, f: RS): (p: Phys)
    requires |f.buffer| >= HEADER
    ensures p.next.Left() < f.Left()
  {
    var b, dropped := f.buffer, f.(buffer := []);
    var n, kind := Length(b[4], b[5]), b[6];
    if HEADER + n > |b| then Phys(if f.eof then EOF else BAD, [], dropped, if f.eof then 0 else 1)
    else if kind == 0 && n == 0 then Phys(BAD, [], dropped, 0)
    else if b[..4] != Fixed(crc(b[6..HEADER + n]), 4) then Phys(BAD, [], dropped, 1)
    else Phys(kind, b[HEADER..HEADER + n], f.(buffer := b[HEADER + n..]), 0)
  }

  ghost function ReadPhys(crc: Str -> nat, s: RS): (p: Phys)
    ensures p.kind != EOF ==> p.next.Left() < s.Left()
  {
    var f := Refilled(s);
    if |f.buffer| < HEADER then Phys(EOF, [], f.(buffer := []), 0) else ParsePhys(crc, f)
  }

  /** How the reader goes on after a fragment. */
  datatype Turn = Done(record: Option<Str>, reports: nat) | More(inside: bool, scratch: Str, reports: nat)

  /** The switch of ReadRecord: `inside` a fragmented record, `scratch` holds what it has so far. */
  ghost function TurnFor(kind: Byte, data: Str, inside: bool, scratch: Str): Turn {
    var lost := if inside && scratch != [] then 1 else 0;
    if kind == EOF then Done(None, 0)
    else if kind == FULL then Done(Some(data), lost)
    else if kind == FIRST then More(true, data, lost)
    else if kind == MIDDLE then if inside then More(true, scratch + data, 0) else More(false, scratch, 1)
    else if kind == LAST then if inside then Done(Some(scratch + data), 0) else More(false, scratch, 1)
    else if kind == BAD then if inside then More(false, [], 1) else More(false, scratch, 0)
    else More(false, [], 1)
  }

  datatype Logical = Logical(record: Option<Str>, next: RS, reports: nat)

  ghost function ReadLogical(crc: Str -> nat, s: RS, inside: bool, scratch: Str, reports: nat): (l: Logical)
    ensures l.record.Some? ==> l.next.Left() < s.Left()
    decreases s.Left()
  {
    var p := ReadPhys(crc, s);
    match TurnFor(p.kind, p.data, inside, scratch)
    case Done(record, n) => Logical(record, p.next, reports + p.reports + n)
    case More(inside', scratch', n) => ReadLogical(crc, p.next, inside', scratch', reports + p.reports + n)
  }

  class Reader {
    var buffer: Str
    var unread: Str
    var eof: bool
    var reports: nat

    ghost function Abs(): RS
      reads this
    {
      RS(buffer, unread, eof)
    }

    constructor (file: Str)
      ensures Abs() == RS([], file, false) && reports == 0
    {
      buffer, unread, eof, reports := [], file, false, 0;
    }

    /** The head of ReadPhysicalRecord's loop: false at the end of the file. */
    method EnsureHeader() returns (ok: bool)
      modifies this`buffer, this`unread, this`eof
      ensures ok <==> |Refilled(old(Abs())).buffer| >= HEADER
      ensures Abs() == if ok then Refilled(old(Abs())) else Refilled(old(Abs())).(buffer := [])
    {
      while |buffer| < HEADER
        invariant Refilled(Abs()) == Refilled(old(Abs()))
        decreases |buffer| < HEADER, !eof
      {
        if eof {
          buffer := [];
          return false;
        }
        var n := if |unread| < BLOCK then |unread| else BLOCK;
        buffer, unread := unread[..n], unread[n..];
        if n < BLOCK {
          eof := true;
        }
      }
      return true;
    }

    /** ReadPhysicalRecord */
    method ReadPhysicalRecord(crc: Str -> nat) returns (kind: Byte, data: Str)
      modifies this
      ensures var p := ReadPhys(crc, old(Abs()));
              kind == p.kind && data == p.data && Abs() == p.next && reports == old(reports) + p.reports
    {
      var ok := EnsureHeader();
      if !ok {
        return EOF, [];
      }
      kind, data := ParseHeader(crc);
    }

    /** The rest of ReadPhysicalRecord, once a header is buffered. */
    method ParseHeader(crc: Str -> nat) returns (kind: Byte, data: Str)
      requires |buffer| >= HEADER
      modifies this`buffer, this`reports
      ensures var p := ParsePhys(crc, old(Abs()));
              kind == p.kind && data == p.data && Abs() == p.next && reports == old(reports) + p.reports
    {
      var length, t := Length(buffer[4], buffer[5]), buffer[6];
      if HEADER + length > |buffer| {
        buffer := [];
        if !eof {
          reports := reports + 1;
          return BAD, [];
        }
        return EOF, [];
      }
      if t == 0 && length == 0 {
        buffer := [];
        return BAD, [];
      }
      var check := EncodeFixed(crc(buffer[6..HEADER + length]), 4);
      if buffer[..4] != check {
        buffer := [];
        reports := reports + 1;
        return BAD, [];
      }
      kind, data := t, buffer[HEADER..HEADER + length];
      buffer := buffer[HEADER + length..];
    }

    method Switch(kind: Byte, fragment: Str, inside: bool, scratch: Str) returns (turn: Turn)
      ensures turn == TurnFor(kind, fragment, inside, scratch)
    {
      var lost := if inside && scratch != [] then 1 else 0;
      if kind == FULL {
        return Done(Some(fragment), lost);
      } else if kind == FIRST {
        return More(true, fragment, lost);
      } else if kind == MIDDLE {
        if inside {
          return More(true, scratch + fragment, 0);
        }
        return More(false, scratch, 1);
      } else if kind == LAST {
        if inside {
          return Done(Some(scratch + fragment), 0);
        }
        return More(false, scratch, 1);
      } else if kind == EOF {
        return Done(None, 0);
      } else if kind == BAD {
        if inside {
          return More(false, [], 1);
        }
        return More(false, scratch, 0);
      }
      return More(false, [], 1);
    }

    /** One turn of ReadRecord's loop. */
    method ReadTurn(crc: Str -> nat, inside: bool, scratch: Str) returns (turn: Turn)
      modifies this
      ensures turn.More? ==> Abs().Left() < old(Abs()).Left()
      ensures ReadLogical(crc, old(Abs()), inside, scratch, old(reports)) == Continued(crc, turn, Abs(), reports)
    {
      var kind, fragment := ReadPhysicalRecord(crc);
      turn := Switch(kind, fragment, inside, scratch);
      reports := reports + turn.reports;
    }

    /** ReadRecord, from the start of the file (no initial offset). */
    method ReadRecord(crc: Str -> nat) returns (record: Option<Str>)
      modifies this
      ensures var l := ReadLogical(crc, old(Abs()), false, [], old(reports));
              record == l.record && Abs() == l.next && reports == l.reports
    {
      var turn := More(false, [], 0);
      ghost var l := ReadLogical(crc, Abs(), false, [], reports);
      while turn.More?
        invariant Continued(crc, turn, Abs(), reports) == l
        decreases turn.More?, Abs().Left()
      {
        turn := ReadTurn(crc, turn.inside, turn.scratch);
      }
      return turn.record;
    }
  }

  /** What the rest of the loop gives after a turn. */
  ghost function Continued(crc: Str -> nat, turn: Turn, s: RS, reports: nat): Logical {
    match turn
    case Done(record, _) => Logical(record, s, reports)
    case More(inside, scratch, _) => ReadLogical(crc, s, inside, scratch, reports)
  }
}
