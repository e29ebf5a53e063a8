/** What the value logs of a session hold, and what replaying them after it gives. */
module VlogRuns {
  import opened Bytes
  import opened Coding
  import opened VlogFrames
  import opened VlogFormat
  import opened Vlog
  import opened VlogReader

  /** A batch written in a run, with what was handed out for it. */
  datatype Write = Write(rep: Str, ops: seq<Op>, handed: seq<Handed>)

  /** The batches the first n steps of a run write to vlog v, in order. */
  ghost function WritesTo(states: seq<Session>, actions: seq<Action>, v: nat, n: nat): seq<Write>
    requires n <= |actions| < |states|
  {
    if n == 0 then []
    else WritesTo(states, actions, v, n - 1) + Written(states[n - 1], actions[n - 1], v)
  }

  ghost function Reps(ws: seq<Write>): seq<Str> { seq(|ws|, i requires 0 <= i < |ws| => ws[i].rep) }

  ghost function Batches(ws: seq<Write>): seq<seq<Op>> { seq(|ws|, i requires 0 <= i < |ws| => ws[i].ops) }

  ghost function HandedOut(ws: seq<Write>): seq<seq<Handed>> { seq(|ws|, i requires 0 <= i < |ws| => ws[i].handed) }

  /** The log consists of the frames of the batches, and each was handed out the addresses a replay gives it. */
  ghost predicate LogOf(crc: Str -> nat, v: nat, log: Str, ws: seq<Write>) {
    log == Concat(Framed(crc, Reps(ws))) && HandedAtWrite(Batches(ws), Reps(ws), v, HandedOut(ws))
  }

  lemma OneMore(crc: Str -> nat, v: nat, log: Str, ws: seq<Write>, w: Write)
    requires LogOf(crc, v, log, ws)
    requires w.handed == Addresses(WithSizes(w.ops, Encoded(w.ops)), v, |log| + HEADER + BATCH_HEADER)
    ensures LogOf(crc, v, log + Frame(crc, w.rep), ws + [w])
  {
    WritesAppend(ws, w);
    FramesAppend(crc, Reps(ws), w.rep);
    LogLengthIsLength(crc, Reps(ws));
    HandedAppend(Batches(ws), Reps(ws), v, HandedOut(ws), w);
  }

  lemma WritesAppend(ws: seq<Write>, w: Write)
    ensures Reps(ws + [w]) == Reps(ws) + [w.rep]
    ensures Batches(ws + [w]) == Batches(ws) + [w.ops]
    ensures HandedOut(ws + [w]) == HandedOut(ws) + [w.handed]
  {}

  lemma HandedAppend(batches: seq<seq<Op>>, reps: seq<Str>, v: nat, handed: seq<seq<Handed>>, w: Write)
    requires HandedAtWrite(batches, reps, v, handed)
    requires w.handed == Addresses(WithSizes(w.ops, Encoded(w.ops)), v, LogLength(reps) + HEADER + BATCH_HEADER)
    ensures HandedAtWrite(batches + [w.ops], reps + [w.rep], v, handed + [w.handed])
  {
    var k, bs, rs := |reps|, batches + [w.ops], reps + [w.rep];
    assert bs[..k] == batches && rs[..k] == reps && bs[..k + 1] == bs && rs[..k + 1] == rs;
    HandedStep(bs, rs, v, handed, k, w.handed);
  }

  /** Vlog v after n steps: not there yet, or what the steps wrote to it. */
  ghost predicate LogAt(crc: Str -> nat, states: seq<Session>, actions: seq<Action>, v: nat, n: nat)
    requires n <= |actions| < |states|
  {
    LogIn(crc, states[n], v, WritesTo(states, actions, v, n))
  }

  lemma EmptyLog(crc: Str -> nat, v: nat)
    ensures LogOf(crc, v, [], [])
  {
    assert Reps([]) == [] && Batches([]) == [] && HandedOut([]) == [];
  }

  lemma LogNext(crc: Str -> nat, maxSize: nat, states: seq<Session>, actions: seq<Action>, v: nat, n: nat)
    requires IsRun(states, actions, crc, maxSize) && n < |actions| && LogAt(crc, states, actions, v, n)
    ensures LogAt(crc, states, actions, v, n + 1)
  {
    RunsHoldValues(states, actions, crc, maxSize, n);
    SessionStep(crc, maxSize, states[n], actions[n], states[n + 1], v, WritesTo(states, actions, v, n));
  }

  ghost predicate LogIn(crc: Str -> nat, s: Session, v: nat, ws: seq<Write>) {
    if v in s.vlogs then LogOf(crc, v, s.vlogs[v].Log(), ws) else ws == []
  }

  /** What a step writes to vlog v. */
  ghost function Written(s: Session, a: Action, v: nat): seq<Write> {
    if a.WriteBatch? && s.cur == v then [Write(a.rep, a.ops, a.handed)] else []
  }

  lemma SessionStep(crc: Str -> nat, maxSize: nat, s: Session, a: Action, t: Session, v: nat, ws: seq<Write>)
    requires SessionInv(s) && Next(s, a, t, crc, maxSize) && LogIn(crc, s, v, ws)
    ensures LogIn(crc, t, v, ws + Written(s, a, v))
  {
    EmptyLog(crc, v);
    assert ws + [] == ws;
    if a.WriteBatch? && s.cur == v {
      OneMore(crc, v, s.vlogs[v].Log(), ws, Write(a.rep, a.ops, a.handed));
    } else {
      OtherVlogs(crc, maxSize, s, a, t, v);
    }
  }

  /** A vlog the step does not write to. */
  lemma OtherVlogs(crc: Str -> nat, maxSize: nat, s: Session, a: Action, t: Session, v: nat)
    requires SessionInv(s) && Next(s, a, t, crc, maxSize) && !(a.WriteBatch? && s.cur == v)
    ensures v in s.vlogs ==> v in t.vlogs && t.vlogs[v].Log() == s.vlogs[v].Log()
    ensures v !in s.vlogs && v in t.vlogs ==> t.vlogs[v].Log() == []
  {
    match a
    case RollOver =>
    case WriteBatch(rep, ops, handed) =>
    case Flush =>
      assert Split(s.vlogs[s.cur].Log(), []).Log() == s.vlogs[s.cur].Log();
  }

  /**
   In every reachable session each vlog consists of the frames of the batches written to it, one
   after another, and every address handed out is the one a replay from head 0 computes.
   */
  lemma {:induction false} RunsWriteFrames(crc: Str -> nat, maxSize: nat, states: seq<Session>, actions: seq<Action>,
                                           v: nat, n: nat)
    requires IsRun(states, actions, crc, maxSize) && n < |states|
    ensures LogAt(crc, states, actions, v, n)
  {
    if n == 0 {
      EmptyLog(crc, v);
    } else {
      RunsWriteFrames(crc, maxSize, states, actions, v, n - 1);
      LogNext(crc, maxSize, states, actions, v, n - 1);
    }
  }

  /** What is handed out at the time of writing is determined by the batches. */
  lemma HandedOnce(batches: seq<seq<Op>>, reps: seq<Str>, v: nat, h1: seq<seq<Handed>>, h2: seq<seq<Handed>>)
    requires HandedAtWrite(batches, reps, v, h1) && HandedAtWrite(batches, reps, v, h2)
    ensures h1 == h2
  {}

  /**
   A crash after any step of any session, leaving any prefix of a vlog's bytes behind: recovery hands
   out, for each batch wholly in them and for no other, the addresses the session handed out.
   */
  method RecoverSession(crc: Str -> nat, maxSize: nat, ghost states: seq<Session>, ghost actions: seq<Action>,
                        v: nat, ghost n: nat, file: Str) returns (handed: seq<seq<Handed>>, head: nat)
    requires IsRun(states, actions, crc, maxSize) && n < |states| && v in states[n].vlogs
    requires file <= states[n].vlogs[v].Log()
    requires var ws := WritesTo(states, actions, v, n);
             AreBatches(Reps(ws), Batches(ws)) && forall r | r in Reps(ws) :: |r| < TWO_TO_64
    ensures var ws := WritesTo(states, actions, v, n);
            var k := WholeChunks(Framed(crc, Reps(ws)), |file|);
            handed == HandedOut(ws)[..k] && head == LogLength(Reps(ws)[..k])
  {
    ghost var ws := WritesTo(states, actions, v, n);
    ghost var batches, reps := Batches(ws), Reps(ws);
    ghost var k := WholeChunks(Framed(crc, reps), |file|);
    RunsWriteFrames(crc, maxSize, states, actions, v, n);
    handed, head := Recover(crc, batches, reps, file, v);
    FirstHanded(batches, reps, v, HandedOut(ws), k);
    HandedOnce(batches[..k], reps[..k], v, handed, HandedOut(ws)[..k]);
  }

  lemma FirstHanded(batches: seq<seq<Op>>, reps: seq<Str>, v: nat, handed: seq<seq<Handed>>, k: nat)
    requires HandedAtWrite(batches, reps, v, handed) && k <= |reps|
    ensures HandedAtWrite(batches[..k], reps[..k], v, handed[..k])
  {
    assert forall i | 0 <= i <= k :: reps[..k][..i] == reps[..i];
  }
}
