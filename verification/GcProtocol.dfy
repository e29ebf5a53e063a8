/**
 The distributed value log: values are appended to a slave's vlog files, the master maps keys to
 addresses, and garbage collection moves live records while clients put and delete. Every request
 to the master and every append is one atomic step; the steps interleave freely.
 */
module GcProtocol {
  import opened Bytes
  import opened VlogFrames
  import opened VlogFormat
  import opened RunLogic

  datatype Rec = Rec(key: Str, value: Str)

  /** The bytes an encoded record takes. Only HEADER > 0 matters below, so the size function is a parameter. */
  type SizeOf = Rec -> nat

  /** Where record i starts in a log, header included. */
  ghost function Start(size: SizeOf, log: seq<Rec>, i: nat): nat
    requires i <= |log|
  {
    if i == 0 then 0 else Start(size, log, i - 1) + HEADER + size(log[i - 1])
  }

  ghost function AddressOf(size: SizeOf, log: seq<Rec>, vlog: nat, i: nat): Addr
    requires i < |log|
  {
    Addr(vlog, Start(size, log, i) + HEADER, size(log[i]))
  }

  lemma {:induction false} StartGrows(size: SizeOf, log: seq<Rec>, i: nat, j: nat)
    requires i < j <= |log|
    ensures Start(size, log, i) < Start(size, log, j)
    decreases j
  {
    if i < j - 1 {
      StartGrows(size, log, i, j - 1);
    }
  }

  /** Within one file an address names one record. */
  lemma AddressInjective(size: SizeOf, log: seq<Rec>, vlog: nat, i: nat, j: nat)
    requires i < |log| && j < |log| && AddressOf(size, log, vlog, i) == AddressOf(size, log, vlog, j)
    ensures i == j
  {
    if i < j {
      StartGrows(size, log, i, j);
    } else if j < i {
      StartGrows(size, log, j, i);
    }
  }

  lemma {:induction false} StartExtends(size: SizeOf, log: seq<Rec>, rec: Rec, i: nat)
    requires i <= |log|
    ensures Start(size, log + [rec], i) == Start(size, log, i)
  {
    if i > 0 {
      StartExtends(size, log, rec, i - 1);
    }
  }

  type Logs = map<nat, seq<Rec>>

  ghost predicate IsAt(size: SizeOf, logs: Logs, a: Addr, i: nat, rec: Rec) {
    && a.vlog in logs
    && i < |logs[a.vlog]|
    && a == AddressOf(size, logs[a.vlog], a.vlog, i)
    && rec == logs[a.vlog][i]
  }

  /** The vlog holds rec at address a. */
  ghost predicate Points(size: SizeOf, logs: Logs, a: Addr, rec: Rec) {
    exists i: nat :: IsAt(size, logs, a, i, rec)
  }

  lemma PointsFunctional(size: SizeOf, logs: Logs, a: Addr, r1: Rec, r2: Rec)
    requires Points(size, logs, a, r1) && Points(size, logs, a, r2)
    ensures r1 == r2
  {
    var i: nat :| IsAt(size, logs, a, i, r1);
    var j: nat :| IsAt(size, logs, a, j, r2);
    AddressInjective(size, logs[a.vlog], a.vlog, i, j);
  }

  // ----- states and steps

  /** A client PUT that has been appended but not registered yet. */
  datatype Put = Put(rec: Rec, addr: Addr)

  datatype Phase = Scan | Matched | Moved(addr: Addr)

  /** execute_gc_on_file part way through: record i of `records` is next. */
  datatype Gc = Gc(file: nat, records: seq<Rec>, i: nat, phase: Phase)

  datatype State = State(
    logs: Logs,
    cur: nat,
    master: map<Str, Addr>,
    expected: map<Str, Str>,  // the value of each key's last registered PUT
    puts: map<nat, Put>,
    gcs: map<nat, Gc>)

  /** write_value_to_vlog, rollover included. */
  ghost predicate Appends(size: SizeOf, maxSize: nat, s: State, rec: Rec, logs: Logs, cur: nat, a: Addr) {
    s.cur in s.logs &&
    var log := s.logs[s.cur];
    var end := Start(size, log, |log|);
    if end >= maxSize then
      cur == s.cur + 1 && logs == s.logs[cur := [rec]] && a == Addr(cur, HEADER, size(rec))
    else
      cur == s.cur && logs == s.logs[cur := log + [rec]] && a == Addr(cur, end + HEADER, size(rec))
  }

  datatype Step =
    | PutAppend(id: nat, rec: Rec, addr: Addr)
    | PutRegister(id: nat)
    | PutFail(id: nat)
    | Delete(key: Str)
    | GcStart(id: nat, file: nat)
    | GcCheck(id: nat)
    | GcAppend(id: nat, addr: Addr)
    | GcUpdate(id: nat)
    | GcSkip(id: nat)
    | GcEnd(id: nat)

  ghost predicate Next(size: SizeOf, maxSize: nat, s: State, step: Step, t: State) {
    match step
    case PutAppend(id, rec, a) =>
      && id !in s.puts
      && Appends(size, maxSize, s, rec, t.logs, t.cur, a)
      && t == s.(logs := t.logs, cur := t.cur, puts := s.puts[id := Put(rec, a)])
    case PutRegister(id) =>  // PUT_ADDR
      && id in s.puts
      && var p := s.puts[id];
      t == s.(master := s.master[p.rec.key := p.addr], expected := s.expected[p.rec.key := p.rec.value],
              puts := s.puts - {id})
    case PutFail(id) =>
      id in s.puts && t == s.(puts := s.puts - {id})
    case Delete(key) =>  // DELETE_ADDR
      t == s.(master := s.master - {key}, expected := s.expected - {key})
    case GcStart(id, file) =>
      && id !in s.gcs && file in s.logs && file < s.cur
      && t == s.(gcs := s.gcs[id := Gc(file, s.logs[file], 0, Scan)])
    case GcCheck(id) =>  // GCGET_ADDR and the three-field comparison
      && id in s.gcs
      && var g := s.gcs[id];
      && g.phase.Scan? && g.i < |g.records|
      && var live := g.records[g.i].key in s.master &&
                     s.master[g.records[g.i].key] == AddressOf(size, g.records, g.file, g.i);
      t == s.(gcs := s.gcs[id := if live then g.(phase := Matched) else g.(i := g.i + 1)])
    case GcAppend(id, a) =>
      && id in s.gcs
      && var g := s.gcs[id];
      && g.phase.Matched? && g.i < |g.records|
      && Appends(size, maxSize, s, g.records[g.i], t.logs, t.cur, a)
      && t == s.(logs := t.logs, cur := t.cur, gcs := s.gcs[id := g.(phase := Moved(a))])
    case GcUpdate(id) =>  // UPDATE_ADDR: the comparison is made only if the key is present
      && id in s.gcs
      && var g := s.gcs[id];
      && g.phase.Moved? && g.i < |g.records|
      && var key := g.records[g.i].key;
      && var changed := key in s.master && s.master[key] != AddressOf(size, g.records, g.file, g.i);
      t == s.(master := if changed then s.master else s.master[key := g.phase.addr],
              gcs := s.gcs[id := g.(i := g.i + 1, phase := Scan)])
    case GcSkip(id) =>  // a request that stays unanswered or a rewrite that fails: on to the next record
      && id in s.gcs
      && var g := s.gcs[id];
      && g.i < |g.records|
      && t == s.(gcs := s.gcs[id := g.(i := g.i + 1, phase := Scan)])
    case GcEnd(id) =>  // the file goes if any record was read, however far the scan came
      && id in s.gcs
      && var g := s.gcs[id];
      && g.phase.Scan?
      && t == s.(logs := if g.i > 0 then s.logs - {g.file} else s.logs, gcs := s.gcs - {id})
  }

  // ----- what holds in every run

  /** Looking a key up through the master and then the vlog gives the value of its last registered PUT. */
  ghost predicate LookupsRight(size: SizeOf, s: State) {
    && s.master.Keys == s.expected.Keys
    && forall k {:trigger s.master[k]} | k in s.master :: Points(size, s.logs, s.master[k], Rec(k, s.expected[k]))
  }

  ghost predicate LogsOk(s: State) {
    s.cur in s.logs && forall v | v in s.logs :: v <= s.cur
  }

  /** An address that has been handed out: the record is there as long as its file is. */
  ghost predicate Told(size: SizeOf, s: State, a: Addr, rec: Rec) {
    a.vlog <= s.cur && (a.vlog in s.logs ==> Points(size, s.logs, a, rec))
  }

  ghost predicate PutOk(size: SizeOf, s: State, id: nat) {
    id in s.puts ==> Told(size, s, s.puts[id].addr, s.puts[id].rec)
  }

  ghost predicate GcOk(size: SizeOf, s: State, g: Gc) {
    && g.file < s.cur
    && g.i <= |g.records|
    && (g.file in s.logs ==> s.logs[g.file] == g.records)
    && (!g.phase.Scan? ==> g.i < |g.records|)
    && (g.phase.Moved? ==> g.file < g.phase.addr.vlog && Told(size, s, g.phase.addr, g.records[g.i]))
  }

  /** What every step keeps, whether or not lookups are right. */
  ghost predicate Weak(size: SizeOf, s: State) {
    && LogsOk(s)
    && (forall id {:trigger PutOk(size, s, id)} :: PutOk(size, s, id))
    && (forall id {:trigger GcOk(size, s, s.gcs[id])} | id in s.gcs :: GcOk(size, s, s.gcs[id]))
  }

  lemma PointsAfterAppend(size: SizeOf, maxSize: nat, s: State, rec: Rec, logs: Logs, cur: nat, a: Addr, b: Addr,
                          r: Rec)
    requires LogsOk(s) && Appends(size, maxSize, s, rec, logs, cur, a) && Points(size, s.logs, b, r)
    ensures Points(size, logs, b, r)
  {
    var i: nat :| IsAt(size, s.logs, b, i, r);
    if b.vlog == cur {
      StartExtends(size, s.logs[cur], rec, i);
    }
    assert IsAt(size, logs, b, i, r);
  }

  lemma AppendedPoints(size: SizeOf, maxSize: nat, s: State, rec: Rec, logs: Logs, cur: nat, a: Addr)
    requires LogsOk(s) && Appends(size, maxSize, s, rec, logs, cur, a)
    ensures Points(size, logs, a, rec) && a.vlog == cur >= s.cur && cur in logs
    ensures forall v | v in logs :: v <= cur
    ensures forall v | v < s.cur :: (v in logs <==> v in s.logs) && (v in logs ==> logs[v] == s.logs[v])
    ensures forall v | v <= s.cur && v in logs :: v in s.logs
  {
    var n := |logs[cur]| - 1;
    if cur == s.cur {
      StartExtends(size, s.logs[cur], rec, n);
    }
    assert IsAt(size, logs, a, n, rec);
  }

  lemma PointsAfterRemove(size: SizeOf, logs: Logs, file: nat, a: Addr, r: Rec)
    requires Points(size, logs, a, r) && a.vlog != file
    ensures Points(size, logs - {file}, a, r)
  {
    var i: nat :| IsAt(size, logs, a, i, r);
    assert IsAt(size, logs - {file}, a, i, r);
  }

  lemma ToldAfterAppend(size: SizeOf, maxSize: nat, s: State, rec: Rec, t: State, a: Addr, b: Addr, r: Rec)
    requires LogsOk(s) && Appends(size, maxSize, s, rec, t.logs, t.cur, a) && Told(size, s, b, r)
    ensures Told(size, t, b, r)
  {
    AppendedPoints(size, maxSize, s, rec, t.logs, t.cur, a);
    if b.vlog in t.logs {
      PointsAfterAppend(size, maxSize, s, rec, t.logs, t.cur, a, b, r);
    }
  }

  /** No step changes what an address leads to, unless it removes the file; and no file comes back. */
  lemma NextTold(size: SizeOf, maxSize: nat, s: State, step: Step, t: State, a: Addr, r: Rec)
    requires LogsOk(s) && Next(size, maxSize, s, step, t) && Told(size, s, a, r)
    ensures Told(size, t, a, r)
  {
    match step
    case PutAppend(id, rec, b) => ToldAfterAppend(size, maxSize, s, rec, t, b, a, r);
    case GcAppend(id, b) => ToldAfterAppend(size, maxSize, s, s.gcs[id].records[s.gcs[id].i], t, b, a, r);
    case GcEnd(id) =>
      if a.vlog in t.logs && s.gcs[id].i > 0 {
        PointsAfterRemove(size, s.logs, s.gcs[id].file, a, r);
      }
    case _ =>
  }

  lemma NextLogsOk(size: SizeOf, maxSize: nat, s: State, step: Step, t: State)
    requires Weak(size, s) && Next(size, maxSize, s, step, t)
    ensures LogsOk(t) && s.cur <= t.cur
    ensures forall v | v in s.logs && v in t.logs && v < s.cur :: t.logs[v] == s.logs[v]
    ensures forall v | v <= s.cur && v in t.logs :: v in s.logs
  {
    match step
    case PutAppend(id, rec, a) => AppendedPoints(size, maxSize, s, rec, t.logs, t.cur, a);
    case GcAppend(id, a) => AppendedPoints(size, maxSize, s, s.gcs[id].records[s.gcs[id].i], t.logs, t.cur, a);
    case GcEnd(id) => assert GcOk(size, s, s.gcs[id]);
    case _ =>
  }

  lemma NextPutOk(size: SizeOf, maxSize: nat, s: State, step: Step, t: State, id: nat)
    requires Weak(size, s) && Next(size, maxSize, s, step, t)
    ensures PutOk(size, t, id)
  {
    if step.PutAppend? && step.id == id {
      AppendedPoints(size, maxSize, s, step.rec, t.logs, t.cur, step.addr);
    } else if id in t.puts {
      assert PutOk(size, s, id);
      NextTold(size, maxSize, s, step, t, s.puts[id].addr, s.puts[id].rec);
    }
  }

  /** A collector the step does not touch. */
  lemma OtherGcOk(size: SizeOf, maxSize: nat, s: State, step: Step, t: State, g: Gc)
    requires Weak(size, s) && Next(size, maxSize, s, step, t) && GcOk(size, s, g)
    ensures GcOk(size, t, g)
  {
    NextLogsOk(size, maxSize, s, step, t);
    if g.phase.Moved? {
      NextTold(size, maxSize, s, step, t, g.phase.addr, g.records[g.i]);
    }
  }

  lemma NextGcOk(size: SizeOf, maxSize: nat, s: State, step: Step, t: State, o: nat)
    requires Weak(size, s) && Next(size, maxSize, s, step, t) && o in t.gcs
    ensures GcOk(size, t, t.gcs[o])
  {
    if o in s.gcs {
      assert GcOk(size, s, s.gcs[o]);
      OtherGcOk(size, maxSize, s, step, t, s.gcs[o]);
      if step.GcAppend? && step.id == o {
        AppendedPoints(size, maxSize, s, s.gcs[o].records[s.gcs[o].i], t.logs, t.cur, step.addr);
      }
    }
  }

  lemma NextKeepsWeak(size: SizeOf, maxSize: nat, s: State, step: Step, t: State)
    requires Weak(size, s) && Next(size, maxSize, s, step, t)
    ensures Weak(size, t)
  {
    NextLogsOk(size, maxSize, s, step, t);
    forall id
      ensures PutOk(size, t, id)
    {
      NextPutOk(size, maxSize, s, step, t, id);
    }
    forall o | o in t.gcs
      ensures GcOk(size, t, t.gcs[o])
    {
      NextGcOk(size, maxSize, s, step, t, o);
    }
  }

  // ----- exactly when a step leaves lookups right

  /** The condition a step has to meet. */
  ghost predicate Exact(size: SizeOf, s: State, step: Step) {
    match step
    case PutRegister(id) => id in s.puts && s.puts[id].addr.vlog in s.logs
    case GcUpdate(id) =>
      id in s.gcs && s.gcs[id].phase.Moved? && s.gcs[id].i < |s.gcs[id].records| && UpdateExact(size, s, s.gcs[id])
    case GcEnd(id) =>
      && id in s.gcs
      && (s.gcs[id].i > 0 ==> forall k {:trigger s.master[k]} | k in s.master :: s.master[k].vlog != s.gcs[id].file)
    case _ => true
  }

  /** The key has not been deleted; if it still has the old address, the new one is in a file that exists. */
  ghost predicate UpdateExact(size: SizeOf, s: State, g: Gc)
    requires g.phase.Moved? && g.i < |g.records|
  {
    var key := g.records[g.i].key;
    key in s.master &&
    (s.master[key] == AddressOf(size, g.records, g.file, g.i) ==> g.phase.addr.vlog in s.logs)
  }

  lemma NotThere(size: SizeOf, logs: Logs, a: Addr, r: Rec)
    requires a.vlog !in logs
    ensures !Points(size, logs, a, r)
  {
    assert forall i: nat :: !IsAt(size, logs, a, i, r);
  }

  /** Registering a PUT is right just when the file it was appended to has not been collected meanwhile. */
  lemma RegisterRightIff(size: SizeOf, maxSize: nat, s: State, id: nat, t: State)
    requires Weak(size, s) && LookupsRight(size, s) && Next(size, maxSize, s, PutRegister(id), t)
    ensures LookupsRight(size, t) <==> s.puts[id].addr.vlog in s.logs
  {
    var p := s.puts[id];
    assert PutOk(size, s, id);
    assert t.master[p.rec.key] == p.addr;
    if p.addr.vlog !in s.logs {
      NotThere(size, t.logs, p.addr, p.rec);
    }
  }

  /** Only the key of a record can have the record's address in the master. */
  lemma OwnerIsKey(size: SizeOf, s: State, g: Gc, j: nat, k: Str)
    requires LookupsRight(size, s) && GcOk(size, s, g) && j < |g.records| && k in s.master
    requires s.master[k] == AddressOf(size, g.records, g.file, j)
    ensures k == g.records[j].key && g.records[j].value == s.expected[k]
  {
    assert IsAt(size, s.logs, s.master[k], j, g.records[j]);
    PointsFunctional(size, s.logs, s.master[k], g.records[j], Rec(k, s.expected[k]));
  }

  /**
   UPDATE_ADDR is right just when the key has not been deleted since it was checked and, if the
   swap takes place, the file of the new address has not been collected meanwhile.
   */
  lemma UpdateRightIff(size: SizeOf, maxSize: nat, s: State, id: nat, t: State)
    requires Weak(size, s) && LookupsRight(size, s) && Next(size, maxSize, s, GcUpdate(id), t)
    ensures LookupsRight(size, t) <==> UpdateExact(size, s, s.gcs[id])
  {
    var g := s.gcs[id];
    assert GcOk(size, s, g);
    var key := g.records[g.i].key;
    if key !in s.master {
      assert key in t.master.Keys && key !in t.expected.Keys;
    } else if s.master[key] == AddressOf(size, g.records, g.file, g.i) {
      OwnerIsKey(size, s, g, g.i, key);
      assert t.master[key] == g.phase.addr;
      if g.phase.addr.vlog !in s.logs {
        NotThere(size, t.logs, g.phase.addr, Rec(key, t.expected[key]));
      }
    }
  }

  /** Removing a file is right just when the master names no record of it. */
  lemma RemoveRightIff(size: SizeOf, maxSize: nat, s: State, id: nat, t: State)
    requires LookupsRight(size, s) && Next(size, maxSize, s, GcEnd(id), t) && s.gcs[id].i > 0
    ensures LookupsRight(size, t) <==>
              forall k {:trigger s.master[k]} | k in s.master :: s.master[k].vlog != s.gcs[id].file
  {
    var file := s.gcs[id].file;
    forall k | k in s.master
      ensures Points(size, t.logs, t.master[k], Rec(k, t.expected[k])) <==> s.master[k].vlog != file
    {
      if s.master[k].vlog == file {
        NotThere(size, t.logs, t.master[k], Rec(k, t.expected[k]));
      } else {
        PointsAfterRemove(size, s.logs, file, s.master[k], Rec(k, s.expected[k]));
      }
    }
  }

  lemma AppendRight(size: SizeOf, maxSize: nat, s: State, rec: Rec, t: State, a: Addr)
    requires LogsOk(s) && LookupsRight(size, s) && Appends(size, maxSize, s, rec, t.logs, t.cur, a)
    requires t.master == s.master && t.expected == s.expected
    ensures LookupsRight(size, t)
  {
    forall k | k in t.master
      ensures Points(size, t.logs, t.master[k], Rec(k, t.expected[k]))
    {
      PointsAfterAppend(size, maxSize, s, rec, t.logs, t.cur, a, s.master[k], Rec(k, s.expected[k]));
    }
  }

  lemma DeleteRight(size: SizeOf, maxSize: nat, s: State, key: Str, t: State)
    requires LookupsRight(size, s) && Next(size, maxSize, s, Delete(key), t)
    ensures LookupsRight(size, t)
  {
    forall k | k in t.master
      ensures Points(size, t.logs, t.master[k], Rec(k, t.expected[k]))
    {
      assert s.master[k] == t.master[k];
    }
  }

  /** From right lookups, a step leads to right lookups if and only if it meets its condition. */
  lemma StepRightIff(size: SizeOf, maxSize: nat, s: State, step: Step, t: State)
    requires Weak(size, s) && LookupsRight(size, s) && Next(size, maxSize, s, step, t)
    ensures LookupsRight(size, t) <==> Exact(size, s, step)
  {
    match step
    case PutAppend(id, rec, a) => AppendRight(size, maxSize, s, rec, t, a);
    case PutRegister(id) => RegisterRightIff(size, maxSize, s, id, t);
    case PutFail(id) =>
    case Delete(key) => DeleteRight(size, maxSize, s, key, t);
    case GcStart(id, file) =>
    case GcCheck(id) =>
    case GcAppend(id, a) => AppendRight(size, maxSize, s, s.gcs[id].records[s.gcs[id].i], t, a);
    case GcUpdate(id) => UpdateRightIff(size, maxSize, s, id, t);
    case GcSkip(id) =>
    case GcEnd(id) => if s.gcs[id].i > 0 { RemoveRightIff(size, maxSize, s, id, t); }
  }

  // ----- runs

  ghost predicate Initial(s: State) {
    s == State(map[0 := []], 0, map[], map[], map[], map[])
  }

  ghost predicate IsRun(size: SizeOf, maxSize: nat, states: seq<State>, steps: seq<Step>) {
    && |states| == |steps| + 1
    && Initial(states[0])
    && forall i {:trigger StepAt(size, maxSize, states, steps, i)} | 0 <= i < |steps| ::
      StepAt(size, maxSize, states, steps, i)
  }

  ghost predicate StepAt(size: SizeOf, maxSize: nat, states: seq<State>, steps: seq<Step>, i: nat) {
    i < |steps| && i + 1 < |states| && Next(size, maxSize, states[i], steps[i], states[i + 1])
  }

  lemma {:induction false} RunsKeepWeak(size: SizeOf, maxSize: nat, states: seq<State>, steps: seq<Step>, n: nat)
    requires IsRun(size, maxSize, states, steps) && n < |states|
    ensures Weak(size, states[n])
  {
    if n > 0 {
      RunsKeepWeak(size, maxSize, states, steps, n - 1);
      assert StepAt(size, maxSize, states, steps, n - 1);
      NextKeepsWeak(size, maxSize, states[n - 1], steps[n - 1], states[n]);
    }
  }

  ghost predicate RightAt(size: SizeOf, states: seq<State>, i: nat) {
    i < |states| && LookupsRight(size, states[i])
  }

  ghost predicate ExactAt(size: SizeOf, states: seq<State>, steps: seq<Step>, i: nat) {
    i < |states| && i < |steps| && Exact(size, states[i], steps[i])
  }

  ghost function RightAts(size: SizeOf, states: seq<State>): nat -> bool { (i: nat) => RightAt(size, states, i) }

  ghost function ExactAts(size: SizeOf, states: seq<State>, steps: seq<Step>): nat -> bool {
    (i: nat) => ExactAt(size, states, steps, i)
  }

  lemma RightNext(size: SizeOf, maxSize: nat, states: seq<State>, steps: seq<Step>, i: nat)
    requires IsRun(size, maxSize, states, steps) && i < |steps|
    ensures RightAt(size, states, i) ==> (RightAt(size, states, i + 1) <==> ExactAt(size, states, steps, i))
  {
    if RightAt(size, states, i) {
      assert StepAt(size, maxSize, states, steps, i);
      RunsKeepWeak(size, maxSize, states, steps, i);
      StepRightIff(size, maxSize, states[i], steps[i], states[i + 1]);
    }
  }

  /**
   In every interleaving of collections with puts and deletes, a lookup finds exactly the keys with a
   registered PUT not deleted since, and for each the value of the last one, for as long as and no
   longer than every step meets its condition.
   */
  lemma RunsRightIff(size: SizeOf, maxSize: nat, states: seq<State>, steps: seq<Step>, n: nat)
    requires IsRun(size, maxSize, states, steps) && n < |states|
    ensures UpTo(RightAts(size, states), n) <==> FirstAll(ExactAts(size, states, steps), n)
  {
    var right, exact := RightAts(size, states), ExactAts(size, states, steps);
    forall i: nat | i < n
      ensures right(i) ==> (right(i + 1) <==> exact(i))
    {
      RightNext(size, maxSize, states, steps, i);
    }
    IffChain(right, exact, n);
  }

  // ----- a client GET takes two steps

  lemma {:induction false} RunsTold(size: SizeOf, maxSize: nat, states: seq<State>, steps: seq<Step>, i: nat,
                                    j: nat, a: Addr, r: Rec)
    requires IsRun(size, maxSize, states, steps) && i <= j < |states| && Told(size, states[i], a, r)
    ensures Told(size, states[j], a, r)
    decreases j
  {
    if i < j {
      RunsTold(size, maxSize, states, steps, i, j - 1, a, r);
      RunsKeepWeak(size, maxSize, states, steps, j - 1);
      assert StepAt(size, maxSize, states, steps, j - 1);
      NextTold(size, maxSize, states[j - 1], steps[j - 1], states[j], a, r);
    }
  }

  /**
   GET_ADDR at one moment and the fetch at a later one: what is fetched is the value the key had at
   the first moment, if and only if the file has not been removed in between.
   */
  lemma FetchRightIff(size: SizeOf, maxSize: nat, states: seq<State>, steps: seq<Step>, i: nat, j: nat, k: Str)
    requires IsRun(size, maxSize, states, steps) && i <= j < |states|
    requires LookupsRight(size, states[i]) && k in states[i].master
    ensures Points(size, states[j].logs, states[i].master[k], Rec(k, states[i].expected[k])) <==>
            states[i].master[k].vlog in states[j].logs
  {
    var a, r := states[i].master[k], Rec(k, states[i].expected[k]);
    RunsKeepWeak(size, maxSize, states, steps, i);
    assert Points(size, states[i].logs, a, r);
    RunsTold(size, maxSize, states, steps, i, j, a, r);
    if a.vlog !in states[j].logs {
      NotThere(size, states[j].logs, a, r);
    }
  }

  // ----- scans

  /** The master names no record of a file being collected that the scan has passed. */
  ghost predicate Passed(size: SizeOf, s: State, g: Gc) {
    forall k, j: nat | k in s.master && j < g.i && j < |g.records| ::
      s.master[k] != AddressOf(size, g.records, g.file, j)
  }

  ghost predicate Inv(size: SizeOf, s: State) {
    && LookupsRight(size, s) && Weak(size, s)
    && forall id {:trigger Passed(size, s, s.gcs[id])} | id in s.gcs :: Passed(size, s, s.gcs[id])
  }

  /** No scan has passed the address. */
  ghost predicate Ahead(size: SizeOf, s: State, a: Addr) {
    forall id {:trigger AheadOf(size, s.gcs[id], a)} | id in s.gcs :: AheadOf(size, s.gcs[id], a)
  }

  ghost predicate AheadOf(size: SizeOf, g: Gc, a: Addr) {
    forall j: nat | j < g.i && j < |g.records| :: a != AddressOf(size, g.records, g.file, j)
  }

  /**
   What keeps collections right: an address enters the master before a scan passes it, no key is
   deleted between its GCGET_ADDR and its UPDATE_ADDR, no record is skipped that the master still
   names, and scans are not broken off.
   */
  ghost predicate Timely(size: SizeOf, s: State, step: Step) {
    match step
    case PutRegister(id) => id in s.puts && s.puts[id].addr.vlog in s.logs && Ahead(size, s, s.puts[id].addr)
    case GcUpdate(id) => Exact(size, s, step) && Ahead(size, s, s.gcs[id].phase.addr)
    case GcSkip(id) => id in s.gcs && !Live(size, s, s.gcs[id], s.gcs[id].i)
    case GcEnd(id) => Scanned(s, id)
    case _ => true
  }

  /** The collector has come to the end of its file. */
  ghost predicate Scanned(s: State, id: nat) {
    id in s.gcs && s.gcs[id].i == |s.gcs[id].records|
  }

  /** After a complete scan no address of the master names the collected file. */
  lemma ScannedFileUnnamed(size: SizeOf, s: State, id: nat, k: Str)
    requires Inv(size, s) && Scanned(s, id) && k in s.master
    ensures s.master[k].vlog != s.gcs[id].file
  {
    var g := s.gcs[id];
    assert GcOk(size, s, g) && Passed(size, s, g);
    var j: nat :| IsAt(size, s.logs, s.master[k], j, Rec(k, s.expected[k]));
  }

  /**
   Ending a scan after any record is right just when none of the records it has not come to has its
   own address in the master.
   */
  lemma EndRightIff(size: SizeOf, maxSize: nat, s: State, id: nat, t: State)
    requires Inv(size, s) && Next(size, maxSize, s, GcEnd(id), t) && s.gcs[id].i > 0
    ensures LookupsRight(size, t) <==>
            forall j | s.gcs[id].i <= j < |s.gcs[id].records| :: !Live(size, s, s.gcs[id], j)
  {
    var g := s.gcs[id];
    assert GcOk(size, s, g) && Passed(size, s, g);
    RemoveRightIff(size, maxSize, s, id, t);
    if k :| k in s.master && s.master[k].vlog == g.file {
      var j: nat :| IsAt(size, s.logs, s.master[k], j, Rec(k, s.expected[k]));
      assert Live(size, s, g, j);
    }
  }

  /** The record has its own address in the master. */
  ghost predicate Live(size: SizeOf, s: State, g: Gc, j: nat) {
    j < |g.records| && g.records[j].key in s.master &&
    s.master[g.records[j].key] == AddressOf(size, g.records, g.file, j)
  }

  lemma TimelyIsExact(size: SizeOf, s: State, step: Step)
    requires Inv(size, s) && Timely(size, s, step)
    ensures Exact(size, s, step)
  {
    if step.GcEnd? {
      forall k | k in s.master
        ensures s.master[k].vlog != s.gcs[step.id].file
      {
        ScannedFileUnnamed(size, s, step.id, k);
      }
    }
  }

  /** An address that enters the master ahead of every scan leaves what the scans have passed as it is. */
  lemma EntersAhead(size: SizeOf, s: State, t: State, key: Str, a: Addr, o: nat)
    requires o in s.gcs && Passed(size, s, s.gcs[o]) && Ahead(size, s, a) && t.master == s.master[key := a]
    ensures Passed(size, t, s.gcs[o])
  {
    assert AheadOf(size, s.gcs[o], a);
  }

  /** A scan that goes on, past a record only if the master does not name it. */
  lemma CheckPassed(size: SizeOf, maxSize: nat, s: State, step: Step, id: nat, t: State)
    requires Inv(size, s) && Next(size, maxSize, s, step, t) && Timely(size, s, step)
    requires step == GcCheck(id) || step == GcSkip(id)
    ensures Passed(size, t, t.gcs[id])
  {
    var g, h := s.gcs[id], t.gcs[id];
    assert GcOk(size, s, g) && Passed(size, s, g);
    forall k, j: nat | k in t.master && j < h.i && j < |h.records|
      ensures t.master[k] != AddressOf(size, h.records, h.file, j)
    {
      if j == g.i && s.master[k] == AddressOf(size, g.records, g.file, j) {
        OwnerIsKey(size, s, g, j, k);
      }
    }
  }

  /** Once UPDATE_ADDR has been answered no key has the address of the record any more. */
  lemma UpdatePassed(size: SizeOf, maxSize: nat, s: State, id: nat, t: State)
    requires Inv(size, s) && Next(size, maxSize, s, GcUpdate(id), t) && Timely(size, s, GcUpdate(id))
    ensures forall o | o in s.gcs :: Passed(size, t, s.gcs[o])
    ensures Passed(size, t, t.gcs[id])
  {
    var g := s.gcs[id];
    assert GcOk(size, s, g);
    var key := g.records[g.i].key;
    var swapped := s.master[key] == AddressOf(size, g.records, g.file, g.i);
    forall o | o in s.gcs
      ensures Passed(size, t, s.gcs[o])
    {
      assert Passed(size, s, s.gcs[o]);
      if swapped {
        EntersAhead(size, s, t, key, g.phase.addr, o);
      }
    }
    assert Passed(size, t, g);
    forall k | k in t.master
      ensures t.master[k] != AddressOf(size, g.records, g.file, g.i)
    {
      UpdateLeaves(size, maxSize, s, id, t, k);
    }
  }

  lemma UpdateLeaves(size: SizeOf, maxSize: nat, s: State, id: nat, t: State, k: Str)
    requires Inv(size, s) && Next(size, maxSize, s, GcUpdate(id), t) && Timely(size, s, GcUpdate(id)) && k in t.master
    ensures t.master[k] != AddressOf(size, s.gcs[id].records, s.gcs[id].file, s.gcs[id].i)
  {
    var g := s.gcs[id];
    assert GcOk(size, s, g);
    if k in s.master && s.master[k] == AddressOf(size, g.records, g.file, g.i) {
      OwnerIsKey(size, s, g, g.i, k);
    }
  }

  lemma NextPassed(size: SizeOf, maxSize: nat, s: State, step: Step, t: State, o: nat)
    requires Inv(size, s) && Next(size, maxSize, s, step, t) && Timely(size, s, step) && o in t.gcs
    ensures Passed(size, t, t.gcs[o])
  {
    assert o in s.gcs ==> Passed(size, s, s.gcs[o]);
    match step
    case PutRegister(id) =>
      EntersAhead(size, s, t, s.puts[id].rec.key, s.puts[id].addr, o);
    case GcCheck(id) =>
      if o == id { CheckPassed(size, maxSize, s, step, id, t); }
    case GcSkip(id) =>
      if o == id { CheckPassed(size, maxSize, s, step, id, t); }
    case GcUpdate(id) =>
      UpdatePassed(size, maxSize, s, id, t);
    case _ =>
  }

  lemma NextKeepsInv(size: SizeOf, maxSize: nat, s: State, step: Step, t: State)
    requires Inv(size, s) && Next(size, maxSize, s, step, t) && Timely(size, s, step)
    ensures Inv(size, t)
  {
    TimelyIsExact(size, s, step);
    StepRightIff(size, maxSize, s, step, t);
    NextKeepsWeak(size, maxSize, s, step, t);
    forall o | o in t.gcs
      ensures Passed(size, t, t.gcs[o])
    {
      NextPassed(size, maxSize, s, step, t, o);
    }
  }

  ghost predicate TimelyAt(size: SizeOf, states: seq<State>, steps: seq<Step>, i: nat) {
    i < |states| && i < |steps| && Timely(size, states[i], steps[i])
  }

  ghost predicate TimelyRun(size: SizeOf, states: seq<State>, steps: seq<Step>) {
    forall i {:trigger TimelyAt(size, states, steps, i)} | 0 <= i < |steps| :: TimelyAt(size, states, steps, i)
  }

  lemma {:induction false} RunsKeepInv(size: SizeOf, maxSize: nat, states: seq<State>, steps: seq<Step>, n: nat)
    requires IsRun(size, maxSize, states, steps) && TimelyRun(size, states, steps) && n < |states|
    ensures Inv(size, states[n])
  {
    if n > 0 {
      RunsKeepInv(size, maxSize, states, steps, n - 1);
      assert StepAt(size, maxSize, states, steps, n - 1) && TimelyAt(size, states, steps, n - 1);
      NextKeepsInv(size, maxSize, states[n - 1], steps[n - 1], states[n]);
    }
  }

  /**
   In timely runs lookups are right throughout, and a file whose scan is complete is named by no
   address of the master.
   */
  lemma RunsLookUpRight(size: SizeOf, maxSize: nat, states: seq<State>, steps: seq<Step>, n: nat)
    requires IsRun(size, maxSize, states, steps) && TimelyRun(size, states, steps) && n < |states|
    ensures LookupsRight(size, states[n])
    ensures forall id, k | Scanned(states[n], id) && k in states[n].master ::
              states[n].master[k].vlog != states[n].gcs[id].file
  {
    RunsKeepInv(size, maxSize, states, steps, n);
    forall id, k | Scanned(states[n], id) && k in states[n].master
      ensures states[n].master[k].vlog != states[n].gcs[id].file
    {
      ScannedFileUnnamed(size, states[n], id, k);
    }
  }

  // ----- collecting the oldest file first

  /** The slave collects the oldest file there is. */
  ghost predicate Oldest(s: State, step: Step) {
    step.GcStart? ==> forall v | v in s.logs :: step.file <= v
  }

  ghost predicate OldestAt(states: seq<State>, steps: seq<Step>, i: nat) {
    i < |states| && i < |steps| && Oldest(states[i], steps[i])
  }

  ghost predicate OldestFirst(states: seq<State>, steps: seq<Step>) {
    forall i {:trigger OldestAt(states, steps, i)} | 0 <= i < |steps| :: OldestAt(states, steps, i)
  }

  /** The files that exist are the newest ones, and none is older than a file being collected. */
  ghost predicate NewestLeft(s: State) {
    && (forall v, w: nat | v in s.logs && v <= w <= s.cur :: w in s.logs)
    && forall id, v | id in s.gcs && v in s.logs :: s.gcs[id].file <= v
  }

  lemma NextNewestLeft(size: SizeOf, maxSize: nat, s: State, step: Step, t: State)
    requires Weak(size, s) && NewestLeft(s) && Next(size, maxSize, s, step, t) && Oldest(s, step)
    ensures NewestLeft(t)
  {
    NextLogsOk(size, maxSize, s, step, t);
    if step.GcCheck? || step.GcAppend? || step.GcUpdate? || step.GcSkip? || step.GcEnd? {
      assert GcOk(size, s, s.gcs[step.id]);
    }
  }

  lemma {:induction false} RunsNewestLeft(size: SizeOf, maxSize: nat, states: seq<State>, steps: seq<Step>, n: nat)
    requires IsRun(size, maxSize, states, steps) && OldestFirst(states, steps) && n < |states|
    ensures NewestLeft(states[n])
  {
    if n > 0 {
      RunsNewestLeft(size, maxSize, states, steps, n - 1);
      RunsKeepWeak(size, maxSize, states, steps, n - 1);
      assert StepAt(size, maxSize, states, steps, n - 1) && OldestAt(states, steps, n - 1);
      NextNewestLeft(size, maxSize, states[n - 1], steps[n - 1], states[n]);
    }
  }

  /** Then a moved record's file outlives the file it came from, so only a deleted key makes UPDATE_ADDR go wrong. */
  lemma OldestUpdateIff(size: SizeOf, maxSize: nat, states: seq<State>, steps: seq<Step>, n: nat, id: nat)
    requires IsRun(size, maxSize, states, steps) && OldestFirst(states, steps) && n < |steps|
    requires steps[n] == GcUpdate(id)
    requires LookupsRight(size, states[n])
    ensures id in states[n].gcs && states[n].gcs[id].i < |states[n].gcs[id].records|
    ensures LookupsRight(size, states[n + 1]) <==>
              states[n].gcs[id].records[states[n].gcs[id].i].key in states[n].master
  {
    assert StepAt(size, maxSize, states, steps, n);
    RunsKeepWeak(size, maxSize, states, steps, n);
    RunsNewestLeft(size, maxSize, states, steps, n);
    UpdateRightIff(size, maxSize, states[n], id, states[n + 1]);
    MovedFileThere(size, states[n], states[n].gcs[id]);
  }

  lemma MovedFileThere(size: SizeOf, s: State, g: Gc)
    requires LookupsRight(size, s) && GcOk(size, s, g) && g.phase.Moved? && NewestLeft(s)
    ensures UpdateExact(size, s, g) <==> g.records[g.i].key in s.master
  {
    var key := g.records[g.i].key;
    if key in s.master && s.master[key] == AddressOf(size, g.records, g.file, g.i) {
      assert Points(size, s.logs, s.master[key], Rec(key, s.expected[key]));
      assert g.file in s.logs;
    }
  }
}
