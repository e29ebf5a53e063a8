/**
 Compactions that take time. Between the choice of a compaction's inputs and the installation of its
 outputs, writes and snapshots go on, and the compaction loop itself flushes the immutable memtable.

 A run keeps the level invariant for as long as no installed output reaches across a file that was
 flushed to its level meanwhile, and no longer; reads of what is stored never depend on nested flushes.
 Compactions the code picks by itself have inputs without gaps, and then no flush can get in between;
 module GapLost shows what happens in a manual one. The numbers of output files are given out when
 they are installed; at the output level nothing depends on them.
 */
module NestedRuns {
  import opened Bytes
  import opened InternalKeys
  import opened Versions
  import opened InputSelection
  import opened CompactionLoop
  import opened CompactionReads
  import opened VersionSteps
  import opened LayeredGet
  import opened StoreReads
  import opened DbRuns

  /** The running compaction: level, inputs, merged stream, snapshot, and the version it began with. */
  datatype Work = Idle | Busy(level: nat, in0: seq<File>, in1: seq<File>, merged: seq<Entry>, snapshot: SeqNum,
                              base: Version)

  datatype State = State(db: Db, work: Work)

  datatype Step =
    | Do(action: Action)
    | Begin(level: nat, in0: seq<File>, in1: seq<File>, merged: seq<Entry>, snapshot: SeqNum)
    | Install(outs: seq<File>)

  /** There is one background thread: while it compacts it neither moves files nor compacts others. */
  ghost predicate NestedNext(x: State, step: Step, y: State) {
    match step
    case Do(a) =>
      && y.work == x.work && !a.Compact? && (x.work.Busy? ==> !a.Move?)
      && Next(x.db, a, y.db)
    case Begin(level, in0, in1, m, s) =>
      && x.work.Idle? && IsSmallestSnapshot(x.db, s)
      && InputsOk(x.db.version, level, in0, in1) && MergedInputs(in0, in1, m)
      && y == State(x.db, Busy(level, in0, in1, m, s, x.db.version))
    case Install(outs) =>
      && x.work.Busy? && y.work.Idle?
      && Installs(x.db, x.work, outs, y.db)
  }

  /** The outputs were computed against the version the compaction began with. */
  ghost predicate Installs(db: Db, w: Work, outs: seq<File>, db': Db)
    requires w.Busy?
  {
    && Contents(outs) == Kept(w.base, w.level, w.merged, |w.merged|, w.snapshot)
    && OutputNumbers([], outs, db.nextFile, db'.nextFile)
    && Compacted(db.version, db'.version, w.level, w.in0, w.in1, outs)
    && db' == db.(version := db'.version, nextFile := db'.nextFile, floor := w.snapshot)
  }

  /** A memtable is flushed to the level the running compaction's outputs go to. */
  ghost predicate FlushesInto(x: State, step: Step) {
    && x.work.Busy? && step.Do? && step.action.Flush? && step.action.level == x.work.level + 1
    && ImmEntries(x.db) != []
  }

  /** The flush does not drop a file between the inputs of the running compaction. */
  ghost predicate Clear(x: State, step: Step) {
    FlushesInto(x, step) ==>
      var es := ImmEntries(x.db);
      x.work.in0 != [] && (es[|es| - 1].key.user < MinUser(x.work.in0) || es[0].key.user > MaxUser(x.work.in0))
  }

  /** The inputs of the running compaction are still what it takes them for. */
  ghost predicate WorkOk(db: Db, w: Work) {
    w.Busy? ==>
      && InputsHold(db.version, w.level, w.in0, w.in1) && MergedInputs(w.in0, w.in1, w.merged)
      && db.floor <= w.snapshot <= db.lastSeq && (forall t | t in db.snapshots :: w.snapshot <= t)
      && SameBase(w.base, db.version, w.level, w.merged)
  }

  /** Both versions agree on which keys of the stream have nothing deeper. */
  ghost predicate SameBase(v: Version, v': Version, level: nat, m: seq<Entry>) {
    forall e {:trigger BaseLevelFor(v, level, e.key.user)} {:trigger BaseLevelFor(v', level, e.key.user)} | e in m ::
      BaseLevelFor(v, level, e.key.user) <==> BaseLevelFor(v', level, e.key.user)
  }

  lemma {:induction false} SameKept(v: Version, v': Version, level: nat, m: seq<Entry>, n: nat, s: SeqNum)
    requires SameBase(v, v', level, m) && n <= |m|
    ensures Kept(v, level, m, n, s) == Kept(v', level, m, n, s)
  {
    if n > 0 {
      SameKept(v, v', level, m, n - 1, s);
      assert m[n - 1] in m;
      assert Dropped(v, level, m, n - 1, s) <==> Dropped(v', level, m, n - 1, s);
    }
  }

  // ----- a nested flush

  lemma FlushedMember(v: Version, v': Version, fl: nat, f: File, l: nat, g: File)
    requires Flushed(v, v', fl, f) && l < NUM_LEVELS
    ensures g in v'[l] <==> g in v[l] || (l == fl && g == f)
  {}

  /** A flush that stays clear of the inputs leaves them as they were. */
  lemma FlushKeepsInputs(v: Version, v': Version, fl: nat, f: File, level: nat, in0: seq<File>, in1: seq<File>)
    requires InputsHold(v, level, in0, in1) && Flushed(v, v', fl, f) && NewerThanAll(f, v)
    requires fl == level + 1 ==> !Overlaps(f, Some(MinUser(in0)), Some(MaxUser(in0)))
    ensures InputsHold(v', level, in0, in1)
  {
    forall g
      ensures g in v'[level] <==> g in v[level] || (level == fl && g == f)
      ensures g in v'[level + 1] <==> g in v[level + 1] || (level + 1 == fl && g == f)
    {
      FlushedMember(v, v', fl, f, level, g);
      FlushedMember(v, v', fl, f, level + 1, g);
    }
    forall h, g | h in in0 && g in v'[level] && g !in in0
      ensures LeftBehind(g, h)
    {
      if g in v[level] { assert LeftBehind(g, h); } else { assert NewerFile(f, h); }
    }
  }

  /** A file that overlaps nothing down to its level covers no user key of shallower files. */
  lemma CoversNoKey(v: Version, fl: nat, f: File, l: nat, h: File, e: Entry)
    requires LevelFits(v, fl, f) && 0 < fl && l <= fl && l < NUM_LEVELS && h in v[l] && e in h.entries
    ensures !InRange(f, e.key.user)
  {
    assert !Overlaps(h, Some(Smallest(f).user), Some(Largest(f).user));
    EntryBounds(h, e);
  }

  lemma FlushKeepsBase(v: Version, v': Version, fl: nat, f: File, level: nat, in0: seq<File>, in1: seq<File>,
                       m: seq<Entry>)
    requires InputsHold(v, level, in0, in1) && MergedInputs(in0, in1, m) && Flushed(v, v', fl, f) && LevelFits(v, fl, f)
    ensures SameBase(v, v', level, m)
  {
    forall e | e in m
      ensures BaseLevelFor(v, level, e.key.user) <==> BaseLevelFor(v', level, e.key.user)
    {
      var l, h := MergedFrom(v, level, in0, in1, m, e);
      if level + 2 <= fl {
        CoversNoKey(v, fl, f, l, h, e);
      }
      BaseSame(v, v', fl, f, level, e.key.user);
    }
  }

  lemma MergedFrom(v: Version, level: nat, in0: seq<File>, in1: seq<File>, m: seq<Entry>, e: Entry)
    returns (l: nat, h: File)
    requires InputsHold(v, level, in0, in1) && MergedInputs(in0, in1, m) && e in m
    ensures level <= l <= level + 1 && h in v[l] && e in h.entries
  {
    assert e in Elems(m);
    if e in FileEntries(in0) {
      h :| h in in0 && e in h.entries;
      l := level;
    } else {
      h :| h in in1 && e in h.entries;
      l := level + 1;
    }
  }

  lemma BaseSame(v: Version, v': Version, fl: nat, f: File, level: nat, u: UserKey)
    requires Flushed(v, v', fl, f) && (level + 2 <= fl ==> !InRange(f, u))
    ensures BaseLevelFor(v, level, u) <==> BaseLevelFor(v', level, u)
  {
    forall l, g | level + 2 <= l < NUM_LEVELS
      ensures g in v'[l] <==> g in v[l] || (l == fl && g == f)
    {
      FlushedMember(v, v', fl, f, l, g);
    }
  }

  lemma SameBaseTransitive(u: Version, v: Version, w: Version, level: nat, m: seq<Entry>)
    requires SameBase(u, v, level, m) && SameBase(v, w, level, m)
    ensures SameBase(u, w, level, m)
  {
    forall e | e in m
      ensures BaseLevelFor(u, level, e.key.user) <==> BaseLevelFor(w, level, e.key.user)
    {
      assert BaseLevelFor(u, level, e.key.user) <==> BaseLevelFor(v, level, e.key.user);
    }
  }

  lemma MemtableNewer(db: Db, f: File)
    requires DbInv(db) && f.entries == ImmEntries(db)
    ensures NewerThanAll(f, db.version)
  {
    forall l, g | 0 <= l < NUM_LEVELS && g in db.version[l]
      ensures NewerFile(f, g)
    {
      SetNewerFile(db.version, l, f, g);
    }
  }

  lemma FlushKeepsWork(db: Db, w: Work, fl: nat, f: File, db': Db)
    requires WorkOk(db, w) && w.Busy? && Flushed(db.version, db'.version, fl, f) && NewerThanAll(f, db.version)
    requires db'.floor == db.floor && db'.lastSeq == db.lastSeq && db'.snapshots == db.snapshots
    requires LevelFits(db.version, fl, f) &&
               (fl == w.level + 1 ==> !Overlaps(f, Some(MinUser(w.in0)), Some(MaxUser(w.in0))))
    ensures WorkOk(db', w)
  {
    FlushKeepsAll(db.version, db'.version, fl, f, w);
  }

  lemma FlushKeepsAll(v: Version, v': Version, fl: nat, f: File, w: Work)
    requires w.Busy? && InputsHold(v, w.level, w.in0, w.in1) && MergedInputs(w.in0, w.in1, w.merged)
    requires SameBase(w.base, v, w.level, w.merged)
    requires Flushed(v, v', fl, f) && NewerThanAll(f, v) && LevelFits(v, fl, f)
    requires fl == w.level + 1 ==> !Overlaps(f, Some(MinUser(w.in0)), Some(MaxUser(w.in0)))
    ensures InputsHold(v', w.level, w.in0, w.in1) && SameBase(w.base, v', w.level, w.merged)
  {
    FlushKeepsInputs(v, v', fl, f, w.level, w.in0, w.in1);
    FlushKeepsBase(v, v', fl, f, w.level, w.in0, w.in1, w.merged);
    SameBaseTransitive(w.base, v, v', w.level, w.merged);
  }

  // ----- runs

  /** Installing the outputs is the compaction step of the simple state machine. */
  lemma InstallIsCompact(db: Db, w: Work, outs: seq<File>, db': Db)
    requires w.Busy? && WorkOk(db, w) && Installs(db, w, outs, db')
    ensures Next(db, Compact(w.level, w.in0, w.in1, w.merged, w.snapshot, outs), db')
  {
    SameKept(w.base, db.version, w.level, w.merged, |w.merged|, w.snapshot);
  }

  lemma BeginWorkOk(db: Db, level: nat, in0: seq<File>, in1: seq<File>, m: seq<Entry>, s: SeqNum)
    requires DbInv(db) && IsSmallestSnapshot(db, s) && InputsOk(db.version, level, in0, in1)
    requires MergedInputs(in0, in1, m)
    ensures WorkOk(db, Busy(level, in0, in1, m, s, db.version))
  {
    InputsOkHold(db.version, level, in0, in1);
    SmallestSnapshot(db, s);
  }

  lemma ClearApart(db: Db, w: Work, fl: nat, size: nat, f: File)
    requires w.Busy? && Clear(State(db, w), Do(Flush(fl, size))) && f.entries == ImmEntries(db) && w.in0 != []
    ensures fl == w.level + 1 ==> !Overlaps(f, Some(MinUser(w.in0)), Some(MaxUser(w.in0)))
  {}

  lemma DoFlushKeepsWork(db: Db, w: Work, fl: nat, size: nat, f: File, db': Db)
    requires WorkOk(db, w) && w.Busy? && Next(db, Flush(fl, size), db')
    requires db.imm.value != [] && f == RawFile(db.nextFile, size, db.imm.value) && NewerThanAll(f, db.version)
    requires Clear(State(db, w), Do(Flush(fl, size)))
    ensures WorkOk(db', w)
  {
    ClearApart(db, w, fl, size, f);
    FlushKeepsWork(db, w, fl, f, db');
  }

  lemma OtherKeepsWork(db: Db, w: Work, a: Action, db': Db)
    requires WorkOk(db, w) && w.Busy? && Next(db, a, db') && !a.Compact? && !a.Move?
    requires a.Flush? ==> db.imm.value == []
    ensures WorkOk(db', w)
  {
    assert db'.version == db.version;
  }

  lemma DoKeepsWork(x: State, a: Action, y: State)
    requires DbInv(x.db) && WorkOk(x.db, x.work) && NestedNext(x, Do(a), y) && Clear(x, Do(a))
    ensures WorkOk(y.db, y.work)
  {
    if x.work.Busy? {
      if a.Flush? && x.db.imm.value != [] {
        var f: File := RawFile(x.db.nextFile, a.size, x.db.imm.value);
        MemtableNewer(x.db, f);
        DoFlushKeepsWork(x.db, x.work, a.level, a.size, f, y.db);
      } else {
        OtherKeepsWork(x.db, x.work, a, y.db);
      }
    }
  }

  lemma NestedKeepsInv(x: State, step: Step, y: State)
    requires DbInv(x.db) && WorkOk(x.db, x.work) && NestedNext(x, step, y) && Clear(x, step)
    ensures DbInv(y.db) && WorkOk(y.db, y.work)
  {
    match step
    case Do(a) =>
      NextKeepsDbInv(x.db, a, y.db);
      DoKeepsWork(x, a, y);
    case Begin(level, in0, in1, m, s) =>
      BeginWorkOk(x.db, level, in0, in1, m, s);
    case Install(outs) =>
      var w := x.work;
      InstallIsCompact(x.db, w, outs, y.db);
      NextKeepsDbInv(x.db, Compact(w.level, w.in0, w.in1, w.merged, w.snapshot, outs), y.db);
  }

  ghost predicate IsNestedRun(states: seq<State>, steps: seq<Step>) {
    && |states| == |steps| + 1 && Init(states[0].db) && states[0].work.Idle?
    && forall i {:trigger NestedAt(states, steps, i)} | 0 <= i < |steps| :: NestedAt(states, steps, i)
  }

  ghost predicate NestedAt(states: seq<State>, steps: seq<Step>, i: nat) {
    i < |steps| && i + 1 < |states| && NestedNext(states[i], steps[i], states[i + 1])
  }

  ghost predicate ClearRun(states: seq<State>, steps: seq<Step>) {
    forall i {:trigger ClearAt(states, steps, i)} | 0 <= i < |steps| :: ClearAt(states, steps, i)
  }

  ghost predicate ClearAt(states: seq<State>, steps: seq<Step>, i: nat) {
    i < |steps| && i < |states| && Clear(states[i], steps[i])
  }

  ghost predicate GoodAt(states: seq<State>, n: nat) {
    n < |states| && DbInv(states[n].db) && WorkOk(states[n].db, states[n].work)
  }

  lemma GoodInit(states: seq<State>, steps: seq<Step>)
    requires IsNestedRun(states, steps)
    ensures GoodAt(states, 0)
  {
    InitInv(states[0].db);
  }

  lemma GoodNext(states: seq<State>, steps: seq<Step>, i: nat)
    requires IsNestedRun(states, steps) && i < |steps| && GoodAt(states, i) && ClearAt(states, steps, i)
    ensures GoodAt(states, i + 1)
  {
    assert NestedAt(states, steps, i);
    NestedKeepsInv(states[i], steps[i], states[i + 1]);
  }

  lemma ClearNext(states: seq<State>, steps: seq<Step>, i: nat)
    requires IsNestedRun(states, steps) && ClearRun(states, steps) && i < |steps|
    ensures GoodAt(states, i) ==> GoodAt(states, i + 1)
  {
    if GoodAt(states, i) {
      assert ClearAt(states, steps, i);
      GoodNext(states, steps, i);
    }
  }

  /** With flushes nested in compactions too, the level invariant holds throughout every clear run. */
  lemma {:induction false} NestedRunsKeepLevels(states: seq<State>, steps: seq<Step>, n: nat)
    requires IsNestedRun(states, steps) && ClearRun(states, steps) && n < |states|
    ensures GoodAt(states, n)
  {
    if n == 0 {
      GoodInit(states, steps);
    } else {
      NestedRunsKeepLevels(states, steps, n - 1);
      ClearNext(states, steps, n - 1);
    }
  }

  // ----- when a flush is clear

  /** No file that overlaps nothing down to level + 1 fits between inputs without gaps. */
  lemma NoRoomBetween(v: Version, level: nat, in0: seq<File>, in1: seq<File>, f: File)
    requires InputsHold(v, level, in0, in1) && Connected(in0, in1) && LevelFits(v, level + 1, f)
    ensures !Overlaps(f, Some(MinUser(in0)), Some(MaxUser(in0)))
  {
    EntryBounds(f, f.entries[0]);
    if Overlaps(f, Some(MinUser(in0)), Some(MaxUser(in0))) {
      var u := if Smallest(f).user < MinUser(in0) then MinUser(in0) else Smallest(f).user;
      assert InHull(in0, u) by {
        assert in0[0] in in0;
        EntryBounds(in0[0], in0[0].entries[0]);
      }
      var h :| h in in0 + in1 && InRange(h, u);
      InputApart(v, level, in0, in1, f, h, u);
    }
  }

  lemma InputApart(v: Version, level: nat, in0: seq<File>, in1: seq<File>, f: File, h: File, u: UserKey)
    requires InputsHold(v, level, in0, in1) && LevelFits(v, level + 1, f) && h in in0 + in1 && InRange(h, u)
    ensures !InRange(f, u)
  {
    assert h in v[level] || h in v[level + 1];
    assert !Overlaps(h, Some(Smallest(f).user), Some(Largest(f).user));
  }

  /** A compaction that the code picks by itself is never disturbed by a nested flush. */
  lemma ConnectedIsClear(x: State, step: Step, y: State)
    requires WorkOk(x.db, x.work) && NestedNext(x, step, y)
    requires x.work.Busy? ==> Connected(x.work.in0, x.work.in1)
    ensures Clear(x, step)
  {
    if FlushesInto(x, step) {
      var f: File := RawFile(x.db.nextFile, step.action.size, x.db.imm.value);
      NoRoomBetween(x.db.version, x.work.level, x.work.in0, x.work.in1, f);
    }
  }

  /** The compactions of a run are those the code picks by itself. */
  ghost predicate PickedOnly(steps: seq<Step>) {
    forall i | 0 <= i < |steps| && steps[i].Begin? :: Connected(steps[i].in0, steps[i].in1)
  }

  lemma {:induction false} WorkConnected(states: seq<State>, steps: seq<Step>, n: nat)
    requires IsNestedRun(states, steps) && PickedOnly(steps) && n < |states|
    ensures states[n].work.Busy? ==> Connected(states[n].work.in0, states[n].work.in1)
  {
    if n > 0 {
      WorkConnected(states, steps, n - 1);
      assert NestedAt(states, steps, n - 1);
    }
  }

  lemma PickedStep(states: seq<State>, steps: seq<Step>, i: nat)
    requires IsNestedRun(states, steps) && PickedOnly(steps) && i < |steps| && GoodAt(states, i)
    ensures ClearAt(states, steps, i)
  {
    assert NestedAt(states, steps, i);
    WorkConnected(states, steps, i);
    ConnectedIsClear(states[i], steps[i], states[i + 1]);
  }

  lemma PickedNext(states: seq<State>, steps: seq<Step>, i: nat)
    requires IsNestedRun(states, steps) && PickedOnly(steps) && i < |steps|
    ensures GoodAt(states, i) ==> GoodAt(states, i + 1)
  {
    if GoodAt(states, i) {
      PickedStep(states, steps, i);
      GoodNext(states, steps, i);
    }
  }

  lemma {:induction false} PickedRunsKeepInv(states: seq<State>, steps: seq<Step>, n: nat)
    requires IsNestedRun(states, steps) && PickedOnly(steps) && n < |states|
    ensures GoodAt(states, n)
  {
    if n == 0 {
      GoodInit(states, steps);
    } else {
      PickedRunsKeepInv(states, steps, n - 1);
      PickedNext(states, steps, n - 1);
    }
  }

  /** So every run with picked compactions only is clear: nested flushes do no harm in it. */
  lemma PickedRunsAreClear(states: seq<State>, steps: seq<Step>)
    requires IsNestedRun(states, steps) && PickedOnly(steps)
    ensures ClearRun(states, steps)
  {
    forall i | 0 <= i < |steps|
      ensures ClearAt(states, steps, i)
    {
      PickedRunsKeepInv(states, steps, i);
      PickedStep(states, steps, i);
    }
  }

  // ----- exactly when nested flushes do no harm

  /** What the running compaction can count on whatever has been flushed meanwhile. */
  ghost predicate Begun(db: Db, w: Work) {
    w.Busy? ==>
      && InputsPresent(db.version, w.level, w.in0, w.in1) && MergedInputs(w.in0, w.in1, w.merged)
      && VersionInv(w.base) && InputsHold(w.base, w.level, w.in0, w.in1) && Since(w.base, db.version)
      && db.floor <= w.snapshot <= db.lastSeq && forall t | t in db.snapshots :: w.snapshot <= t
  }

  /** The entries that have come since are newer than those from before. */
  ghost predicate Since(base: Version, v: Version) {
    AllEntries(base) <= AllEntries(v) && NewerSet(AllEntries(v) - AllEntries(base), AllEntries(base))
  }

  lemma SinceFlush(base: Version, v: Version, v': Version, fl: nat, f: File)
    requires Since(base, v) && Flushed(v, v', fl, f) && NewerThanAll(f, v)
    ensures Since(base, v')
  {
    forall l, g | 0 <= l < NUM_LEVELS
      ensures g in v'[l] <==> g in v[l] || (l == fl && g == f)
    {
      FlushedMember(v, v', fl, f, l, g);
    }
    FlushedEntries(v, v', fl, f);
    forall d, e | d in AllEntries(v') - AllEntries(base) && e in AllEntries(base) && d.key.user == e.key.user
      ensures d.key.seqno > e.key.seqno
    {
      if d in Elems(f.entries) {
        var l, g := InVersion(v, e);
        assert NewerFile(f, g);
      }
    }
  }

  /** An output reaches from one side to the other of a file flushed to its level since the compaction began. */
  ghost predicate Spans(db: Db, w: Work, outs: seq<File>)
    requires w.Busy?
  {
    exists o, f ::
      w.level + 1 < NUM_LEVELS && o in outs && f in db.version[w.level + 1] && f !in w.base[w.level + 1] && !Apart(f, o)
  }

  lemma PresentAfterFlush(v: Version, v': Version, fl: nat, f: File, level: nat, in0: seq<File>, in1: seq<File>)
    requires InputsPresent(v, level, in0, in1) && Flushed(v, v', fl, f) && NewerThanAll(f, v)
    ensures InputsPresent(v', level, in0, in1)
  {
    forall g
      ensures g in v'[level] <==> g in v[level] || (level == fl && g == f)
      ensures g in v'[level + 1] <==> g in v[level + 1] || (level + 1 == fl && g == f)
    {
      FlushedMember(v, v', fl, f, level, g);
      FlushedMember(v, v', fl, f, level + 1, g);
    }
    forall h, g | h in in0 && g in v'[level] && g !in in0
      ensures LeftBehind(g, h)
    {
      if g in v[level] { assert LeftBehind(g, h); } else { assert NewerFile(f, h); }
    }
  }

  lemma FlushKeepsBegun(db: Db, w: Work, fl: nat, size: nat, f: File, db': Db)
    requires Begun(db, w) && w.Busy? && Next(db, Flush(fl, size), db')
    requires db.imm.value != [] && f == RawFile(db.nextFile, size, db.imm.value) && NewerThanAll(f, db.version)
    ensures Begun(db', w)
  {
    PresentAfterFlush(db.version, db'.version, fl, f, w.level, w.in0, w.in1);
    SinceFlush(w.base, db.version, db'.version, fl, f);
  }

  lemma OtherKeepsBegun(db: Db, w: Work, a: Action, db': Db)
    requires Begun(db, w) && w.Busy? && Next(db, a, db') && !a.Compact? && !a.Move?
    requires a.Flush? ==> db.imm.value == []
    ensures Begun(db', w)
  {
    assert db'.version == db.version;
  }

  lemma NestedKeepsBegun(x: State, step: Step, y: State)
    requires DbInv(x.db) && Begun(x.db, x.work) && NestedNext(x, step, y)
    ensures Begun(y.db, y.work)
  {
    if step.Begin? {
      InputsOkHold(x.db.version, step.level, step.in0, step.in1);
      SmallestSnapshot(x.db, step.snapshot);
    } else if step.Do? && x.work.Busy? {
      var a := step.action;
      if a.Flush? && x.db.imm.value != [] {
        var f: File := RawFile(x.db.nextFile, a.size, x.db.imm.value);
        MemtableNewer(x.db, f);
        FlushKeepsBegun(x.db, x.work, a.level, a.size, f, y.db);
      } else {
        OtherKeepsBegun(x.db, x.work, a, y.db);
      }
    }
  }

  /** Of the files that are left out, those the compaction began with keep apart from its outputs. */
  lemma LeftOutApart(base: Version, v: Version, level: nat, in0: seq<File>, in1: seq<File>, outs: seq<File>)
    requires LevelsSorted(base) && InputsHold(base, level, in0, in1) && FromInputs(in0, in1, outs)
    requires forall o, f | o in outs && f in v[level + 1] && f !in base[level + 1] :: Apart(f, o)
    ensures OutsApart(v, level, in1, outs)
  {
    forall g, o | g in v[level + 1] && g !in in1 && o in outs
      ensures Apart(g, o)
    {
      if g in base[level + 1] {
        OutputApart(base, level, in0, in1, outs, g, o);
      }
    }
  }

  lemma SpansIff(db: Db, w: Work, outs: seq<File>)
    requires w.Busy? && LevelsSorted(w.base) && InputsHold(w.base, w.level, w.in0, w.in1)
    requires FromInputs(w.in0, w.in1, outs)
    ensures OutsApart(db.version, w.level, w.in1, outs) <==> !Spans(db, w, outs)
  {
    if !Spans(db, w, outs) {
      LeftOutApart(w.base, db.version, w.level, w.in0, w.in1, outs);
    }
  }

  lemma InstalledShrinks(v: Version, v': Version, level: nat, in0: seq<File>, in1: seq<File>, outs: seq<File>)
    requires InputsPresent(v, level, in0, in1) && FromInputs(in0, in1, outs) && FilesAfter(v, v', level, in0, in1, outs)
    ensures AllEntries(v') <= AllEntries(v)
  {
    forall e | e in AllEntries(v')
      ensures e in AllEntries(v)
    {
      var l, f := InVersion(v', e);
      if !Survives(v, level, in0, in1, l, f) {
        l, f := OutputSource(v, level, in0, in1, outs, f, e);
      }
      VersionHas(v, l, f, e);
    }
  }

  /** Everything but the order of the output level survives any installation. */
  lemma InstalledDb(db: Db, s: SeqNum, db': Db)
    requires DbInv(db) && db' == db.(version := db'.version, nextFile := db'.nextFile, floor := s)
    requires db.floor <= s <= db.lastSeq && forall t | t in db.snapshots :: s <= t
    requires AllEntries(db'.version) <= AllEntries(db.version)
    requires LevelsInOrder(db'.version) && NumbersBelow(db'.version, db'.nextFile)
    ensures DbInv(db') <==> VersionInv(db'.version)
  {
    LayersShrink(Elems(db.mem), Elems(ImmEntries(db)), AllEntries(db.version), AllEntries(db'.version), db.lastSeq);
  }

  lemma InstalledRest(db: Db, w: Work, outs: seq<File>, db': Db)
    requires w.Busy? && DbInv(db) && Begun(db, w) && Installs(db, w, outs, db')
    requires FilesAfter(db.version, db'.version, w.level, w.in0, w.in1, outs) && NumbersBelow(db'.version, db'.nextFile)
    requires FromInputs(w.in0, w.in1, outs)
    ensures DbInv(db') <==> VersionInv(db'.version)
  {
    InstalledShrinks(db.version, db'.version, w.level, w.in0, w.in1, outs);
    CompactedOrder(db.version, db'.version, w.level, w.in0, w.in1, outs);
    InstalledDb(db, w.snapshot, db');
  }

  /**
   After any number of nested flushes, installing the outputs keeps the level invariant if and only
   if no output reaches across a file that was flushed to its level meanwhile.
   */
  lemma InstallRightIff(db: Db, w: Work, outs: seq<File>, db': Db)
    requires w.Busy? && DbInv(db) && Begun(db, w) && Installs(db, w, outs, db')
    ensures DbInv(db') <==> !Spans(db, w, outs)
  {
    KeptFromInputs(w.base, w.level, w.in0, w.in1, outs, w.merged, w.snapshot);
    InstalledInvIff(db.version, db'.version, w.level, w.in0, w.in1, outs, db.nextFile, db'.nextFile);
    SpansIff(db, w, outs);
    InstalledRest(db, w, outs, db');
  }

  ghost predicate InvAt(states: seq<State>, i: nat) {
    i < |states| && DbInv(states[i].db)
  }

  ghost predicate NoSpanAt(states: seq<State>, steps: seq<Step>, i: nat) {
    i < |states| && i < |steps| &&
    (steps[i].Install? && states[i].work.Busy? ==> !Spans(states[i].db, states[i].work, steps[i].outs))
  }

  ghost predicate InvUpTo(states: seq<State>, n: nat) {
    forall i {:trigger InvAt(states, i)} | 0 <= i <= n :: InvAt(states, i)
  }

  ghost predicate NoSpanUpTo(states: seq<State>, steps: seq<Step>, n: nat) {
    forall i {:trigger NoSpanAt(states, steps, i)} | 0 <= i < n :: NoSpanAt(states, steps, i)
  }

  lemma InvNext(x: State, step: Step, y: State)
    requires DbInv(x.db) && Begun(x.db, x.work) && NestedNext(x, step, y)
    ensures DbInv(y.db) <==> step.Install? ==> !Spans(x.db, x.work, step.outs)
  {
    match step
    case Do(a) => NextKeepsDbInv(x.db, a, y.db);
    case Begin(level, in0, in1, m, s) =>
    case Install(outs) => InstallRightIff(x.db, x.work, outs, y.db);
  }

  ghost predicate BegunAt(states: seq<State>, i: nat) {
    i < |states| && Begun(states[i].db, states[i].work)
  }

  lemma RunNext(states: seq<State>, steps: seq<Step>, i: nat)
    requires IsNestedRun(states, steps) && i < |steps| && InvAt(states, i) && BegunAt(states, i)
    ensures BegunAt(states, i + 1) && (InvAt(states, i + 1) <==> NoSpanAt(states, steps, i))
  {
    assert NestedAt(states, steps, i);
    NestedKeepsBegun(states[i], steps[i], states[i + 1]);
    InvNext(states[i], steps[i], states[i + 1]);
  }

  lemma InvUpToNext(states: seq<State>, n: nat)
    ensures InvUpTo(states, n + 1) <==> InvUpTo(states, n) && InvAt(states, n + 1)
  {
    if InvUpTo(states, n) && InvAt(states, n + 1) {
      forall i | 0 <= i <= n + 1
        ensures InvAt(states, i)
      {}
    }
  }

  lemma NoSpanUpToNext(states: seq<State>, steps: seq<Step>, n: nat)
    ensures NoSpanUpTo(states, steps, n + 1) <==> NoSpanUpTo(states, steps, n) && NoSpanAt(states, steps, n)
  {
    if NoSpanUpTo(states, steps, n) && NoSpanAt(states, steps, n) {
      forall i | 0 <= i < n + 1
        ensures NoSpanAt(states, steps, i)
      {}
    }
  }

  lemma RunInit(states: seq<State>, steps: seq<Step>)
    requires IsNestedRun(states, steps)
    ensures InvAt(states, 0) && BegunAt(states, 0)
  {
    InitInv(states[0].db);
  }

  /**
   In every run, manual compactions and nested flushes included, the level invariant holds for as
   long as and no longer than no installed output reaches across a file flushed meanwhile.
   */
  lemma {:induction false} NestedRunsInvIff(states: seq<State>, steps: seq<Step>, n: nat)
    requires IsNestedRun(states, steps) && n < |states|
    ensures InvUpTo(states, n) <==> NoSpanUpTo(states, steps, n)
    ensures InvUpTo(states, n) ==> BegunAt(states, n)
  {
    if n == 0 {
      RunInit(states, steps);
    } else {
      NestedRunsInvIff(states, steps, n - 1);
      InvUpToNext(states, n - 1);
      NoSpanUpToNext(states, steps, n - 1);
      if InvUpTo(states, n - 1) {
        assert InvAt(states, n - 1);
        RunNext(states, steps, n - 1);
      }
    }
  }

  // ----- reads

  /** What an installation leaves: what came since the compaction began, on top of what it made of the rest. */
  lemma InstalledEntries(v: Version, v': Version, w: Work, outs: seq<File>)
    requires w.Busy? && VersionInv(v) && InputsPresent(v, w.level, w.in0, w.in1) && MergedInputs(w.in0, w.in1, w.merged)
    requires AllEntries(w.base) <= AllEntries(v) && Elems(w.merged) <= AllEntries(w.base)
    requires FilesAfter(v, v', w.level, w.in0, w.in1, outs)
    requires Contents(outs) == Kept(w.base, w.level, w.merged, |w.merged|, w.snapshot)
    ensures AllEntries(v') ==
            (AllEntries(v) - AllEntries(w.base)) + AfterCompaction(w.base, w.level, w.merged, w.snapshot)
  {
    forall e
      ensures e in AllEntries(v') <==>
              e in (AllEntries(v) - AllEntries(w.base)) + AfterCompaction(w.base, w.level, w.merged, w.snapshot)
    {
      InstalledEntry(v, v', w, outs, e);
    }
  }

  lemma InstalledEntry(v: Version, v': Version, w: Work, outs: seq<File>, e: Entry)
    requires w.Busy? && VersionInv(v) && InputsPresent(v, w.level, w.in0, w.in1) && MergedInputs(w.in0, w.in1, w.merged)
    requires AllEntries(w.base) <= AllEntries(v) && Elems(w.merged) <= AllEntries(w.base)
    requires FilesAfter(v, v', w.level, w.in0, w.in1, outs)
    requires Contents(outs) == Kept(w.base, w.level, w.merged, |w.merged|, w.snapshot)
    ensures e in AllEntries(v') <==>
            e in (AllEntries(v) - AllEntries(w.base)) + AfterCompaction(w.base, w.level, w.merged, w.snapshot)
  {
    ContentsMember(outs, e);
    assert e in Elems(w.merged) <==> e in FileEntries(w.in0) || e in FileEntries(w.in1);
    StillStored(v, v', w.level, w.in0, w.in1, outs, e);
    if e in AllEntries(v') {
      StoredAfter(v, v', w.level, w.in0, w.in1, outs, e);
    }
  }

  /** What lies on top of the version the compaction began with. */
  ghost function Top(db: Db, base: Version): set<Entry> {
    (Elems(db.mem) + Elems(ImmEntries(db))) + (AllEntries(db.version) - AllEntries(base))
  }

  lemma TopNewer(db: Db, base: Version)
    requires DbInv(db) && Since(base, db.version)
    ensures NewerSet(Top(db, base), AllEntries(base)) && Stored(db) == Top(db, base) + AllEntries(base)
  {
    StoredTop(db);
  }

  lemma InstalledVersion(v: Version, v': Version, w: Work, outs: seq<File>)
    requires w.Busy? && VersionInv(v) && InputsPresent(v, w.level, w.in0, w.in1) && MergedInputs(w.in0, w.in1, w.merged)
    requires InputsHold(w.base, w.level, w.in0, w.in1) && AllEntries(w.base) <= AllEntries(v)
    requires Compacted(v, v', w.level, w.in0, w.in1, outs)
    requires Contents(outs) == Kept(w.base, w.level, w.merged, |w.merged|, w.snapshot)
    ensures AllEntries(v') ==
            (AllEntries(v) - AllEntries(w.base)) + AfterCompaction(w.base, w.level, w.merged, w.snapshot)
  {
    InstalledFiles(v, v', w.level, w.in0, w.in1, outs);
    InputsStored(w.base, w.level, w.in0, w.in1, w.merged);
    InstalledEntries(v, v', w, outs);
  }

  /** What is stored after an installation: the same on top of what the compaction made of its version. */
  lemma InstalledStored(db: Db, w: Work, outs: seq<File>, db': Db)
    requires w.Busy? && VersionInv(db.version) && Begun(db, w) && Installs(db, w, outs, db')
    ensures Stored(db') == Top(db, w.base) + AfterCompaction(w.base, w.level, w.merged, w.snapshot)
  {
    InstalledVersion(db.version, db'.version, w, outs);
    StoredTop(db');
    Associate(Elems(db.mem) + Elems(ImmEntries(db)), AllEntries(db.version) - AllEntries(w.base),
              AfterCompaction(w.base, w.level, w.merged, w.snapshot));
  }

  lemma Associate(a: set<Entry>, b: set<Entry>, c: set<Entry>)
    ensures a + (b + c) == (a + b) + c
  {}

  /**
   Whatever has been flushed meanwhile, installing the outputs keeps reads equal to the history if and
   only if it shows no deleted key.
   */
  lemma InstallReadsIff(db: Db, w: Work, outs: seq<File>, db': Db)
    requires w.Busy? && DbInv(db) && Begun(db, w) && ReadInv(db) && Installs(db, w, outs, db')
    ensures ReadInv(db') <==> !Shows(w.base, w.level, w.in1, w.snapshot, Stored(db))
  {
    TopNewer(db, w.base);
    InstalledStored(db, w, outs, db');
    StoreReadsIff(db.history, Stored(db), Stored(db'), db.floor, w.snapshot, Top(db, w.base),
                  w.base, w.level, w.in0, w.in1, w.merged);
  }

  /** The installation shows no deleted key. */
  ghost predicate NestedExact(x: State, step: Step) {
    step.Install? && x.work.Busy? && x.work.level + 1 < NUM_LEVELS ==>
      !Shows(x.work.base, x.work.level, x.work.in1, x.work.snapshot, Stored(x.db))
  }

  lemma NestedReadsIff(x: State, step: Step, y: State)
    requires DbInv(x.db) && Begun(x.db, x.work) && ReadInv(x.db) && NestedNext(x, step, y)
    ensures ReadInv(y.db) <==> NestedExact(x, step)
  {
    match step
    case Do(a) => NextKeepsReadInv(x.db, a, y.db);
    case Begin(level, in0, in1, m, s) =>
    case Install(outs) => InstallReadsIff(x.db, x.work, outs, y.db);
  }

  ghost predicate NestedReadAt(states: seq<State>, i: nat) {
    i < |states| && ReadInv(states[i].db)
  }

  ghost predicate NestedExactAt(states: seq<State>, steps: seq<Step>, i: nat) {
    i < |states| && i < |steps| && NestedExact(states[i], steps[i])
  }

  ghost predicate NestedReadUpTo(states: seq<State>, n: nat) {
    forall i {:trigger NestedReadAt(states, i)} | 0 <= i <= n :: NestedReadAt(states, i)
  }

  ghost predicate NestedExactUpTo(states: seq<State>, steps: seq<Step>, n: nat) {
    forall i {:trigger NestedExactAt(states, steps, i)} | 0 <= i < n :: NestedExactAt(states, steps, i)
  }

  lemma NestedReadUpToNext(states: seq<State>, n: nat)
    ensures NestedReadUpTo(states, n + 1) <==> NestedReadUpTo(states, n) && NestedReadAt(states, n + 1)
    ensures NestedReadUpTo(states, n) ==> NestedReadAt(states, n)
  {
    if NestedReadUpTo(states, n) && NestedReadAt(states, n + 1) {
      forall i | 0 <= i <= n + 1
        ensures NestedReadAt(states, i)
      {}
    }
  }

  lemma NestedExactUpToNext(states: seq<State>, steps: seq<Step>, n: nat)
    ensures NestedExactUpTo(states, steps, n + 1) <==>
            NestedExactUpTo(states, steps, n) && NestedExactAt(states, steps, n)
  {
    if NestedExactUpTo(states, steps, n) && NestedExactAt(states, steps, n) {
      forall i | 0 <= i < n + 1
        ensures NestedExactAt(states, steps, i)
      {}
    }
  }

  lemma NestedReadNext(states: seq<State>, steps: seq<Step>, i: nat)
    requires IsNestedRun(states, steps) && i < |steps|
    ensures InvAt(states, i) && BegunAt(states, i) && NestedReadAt(states, i) ==>
              (NestedReadAt(states, i + 1) <==> NestedExactAt(states, steps, i))
  {
    if InvAt(states, i) && BegunAt(states, i) && NestedReadAt(states, i) {
      assert NestedAt(states, steps, i);
      NestedReadsIff(states[i], steps[i], states[i + 1]);
    }
  }

  lemma NestedReadInit(states: seq<State>, steps: seq<Step>)
    requires IsNestedRun(states, steps)
    ensures NestedReadUpTo(states, 0) && NestedExactUpTo(states, steps, 0)
  {
    InitInv(states[0].db);
  }

  /** The level invariant up to a state, and what follows from it there. */
  lemma InvUpToAt(states: seq<State>, steps: seq<Step>, n: nat)
    requires IsNestedRun(states, steps) && n + 1 < |states|
    ensures InvUpTo(states, n + 1) ==> InvUpTo(states, n) && InvAt(states, n) && BegunAt(states, n)
  {
    NestedRunsInvIff(states, steps, n);
    InvUpToNext(states, n);
  }

  /**
   While the level invariant holds, the store reads like the history of writes for as long as and no
   longer than no installed compaction shows a deleted key; nested flushes never change a read.
   */
  lemma {:induction false} NestedRunsReadIff(states: seq<State>, steps: seq<Step>, n: nat)
    requires IsNestedRun(states, steps) && n < |states|
    ensures InvUpTo(states, n) ==> (NestedReadUpTo(states, n) <==> NestedExactUpTo(states, steps, n))
  {
    if n == 0 {
      NestedReadInit(states, steps);
    } else {
      NestedRunsReadIff(states, steps, n - 1);
      InvUpToAt(states, steps, n - 1);
      NestedReadUpToNext(states, n - 1);
      NestedExactUpToNext(states, steps, n - 1);
      NestedReadNext(states, steps, n - 1);
    }
  }

  /** The compaction resurrects no key of the version it began with. */
  ghost predicate NestedSafe(x: State, step: Step) {
    step.Install? && x.work.Busy? && x.work.level + 1 < NUM_LEVELS ==>
      !Resurrects(x.work.base, x.work.level, x.work.in1, x.work.snapshot)
  }

  ghost predicate SafeAt(states: seq<State>, steps: seq<Step>, i: nat) {
    i < |states| && i < |steps| && NestedSafe(states[i], steps[i])
  }

  ghost predicate SafeUpTo(states: seq<State>, steps: seq<Step>, n: nat) {
    forall i {:trigger SafeAt(states, steps, i)} | 0 <= i < n :: SafeAt(states, steps, i)
  }

  lemma SafeExactAt(states: seq<State>, steps: seq<Step>, i: nat)
    requires SafeAt(states, steps, i)
    ensures NestedExactAt(states, steps, i)
  {
    var w := states[i].work;
    if steps[i].Install? && w.Busy? && w.level + 1 < NUM_LEVELS {
      ShownIsResurrected(w.base, w.level, w.in1, w.snapshot, Stored(states[i].db));
    }
  }

  lemma SafeExactUpTo(states: seq<State>, steps: seq<Step>, n: nat)
    requires SafeUpTo(states, steps, n)
    ensures NestedExactUpTo(states, steps, n)
  {
    forall i | 0 <= i < n
      ensures NestedExactAt(states, steps, i)
    {
      assert SafeAt(states, steps, i);
      SafeExactAt(states, steps, i);
    }
  }

  /** So in particular while no compaction resurrects a key of the version it began with. */
  lemma NestedRunsReadHistory(states: seq<State>, steps: seq<Step>, n: nat)
    requires IsNestedRun(states, steps) && n < |states|
    requires InvUpTo(states, n) && SafeUpTo(states, steps, n)
    ensures NestedReadAt(states, n)
  {
    SafeExactUpTo(states, steps, n);
    NestedRunsReadIff(states, steps, n);
    assert NestedReadUpTo(states, n);
  }
}
