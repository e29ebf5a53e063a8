/**
 The database as a state machine: writes, snapshots, memtable rotation, flushes, trivial moves and
 compactions. Two theorems hold over every run from the empty database: the levels stay ordered,
 and every live snapshot reads what the plain history of writes says, for exactly as long as no
 compaction shows a deleted key.
 */
module DbRuns {
  import opened Bytes
  import opened InternalKeys
  import opened Versions
  import opened InputSelection
  import opened CompactionLoop
  import opened CompactionReads
  import opened VersionSteps
  import opened LayeredGet
  import opened StoreReads
  import opened RunLogic

  datatype Db = Db(
    mem: seq<Entry>,               // mem_, in internal-key order
    imm: Option<seq<Entry>>,       // imm_
    version: Version,              // the current version
    lastSeq: SeqNum,               // LastSequence()
    nextFile: nat,                 // the next file number
    snapshots: set<SeqNum>,        // sequence numbers of live snapshots
    floor: SeqNum,                 // the oldest snapshot any compaction has relied on
    history: set<Entry>)           // every write so far

  function ImmEntries(db: Db): seq<Entry> {
    if db.imm.Some? then db.imm.value else []
  }

  ghost function Stored(db: Db): set<Entry> {
    Elems(db.mem) + (Elems(ImmEntries(db)) + AllEntries(db.version))
  }

  ghost predicate Init(db: Db) {
    db == Db([], None, db.version, 0, 2, {}, 0, {}) && EmptyVersion(db.version)
  }

  /** compact->smallest_snapshot: the oldest live snapshot, or the last sequence number. */
  ghost predicate IsSmallestSnapshot(db: Db, s: SeqNum) {
    if db.snapshots == {} then s == db.lastSeq
    else s in db.snapshots && forall t | t in db.snapshots :: s <= t
  }

  /** A compaction that began with this snapshot may still use it when it ends, as long as this holds. */
  lemma SmallestSnapshot(db: Db, s: SeqNum)
    requires IsSmallestSnapshot(db, s) && SnapshotsOk(db)
    ensures db.floor <= s <= db.lastSeq && forall t | t in db.snapshots :: s <= t
  {}

  datatype Action =
    | Write(user: UserKey, kind: Kind, value: Str)
    | TakeSnapshot
    | ReleaseSnapshot(s: SeqNum)
    | Rotate
    | Flush(level: nat, size: nat)
    | Move(level: nat, file: File)
    | Compact(level: nat, in0: seq<File>, in1: seq<File>, merged: seq<Entry>, snapshot: SeqNum, outs: seq<File>)

  ghost predicate Next(db: Db, a: Action, db': Db) {
    match a
    case Write(u, kind, value) =>
      && db.lastSeq + 1 < MAX_SEQ
      && var e := Entry(IKey(u, db.lastSeq + 1, kind), value);
      && Sorted(db'.mem) && Elems(db'.mem) == Elems(db.mem) + {e}
      && db' == db.(mem := db'.mem, lastSeq := db.lastSeq + 1, history := db.history + {e})
    case TakeSnapshot =>
      db' == db.(snapshots := db.snapshots + {db.lastSeq})
    case ReleaseSnapshot(s) =>
      db' == db.(snapshots := db.snapshots - {s})
    case Rotate =>
      db.imm.None? && db' == db.(mem := [], imm := Some(db.mem))
    case Flush(level, size) =>
      && db.imm.Some? && db' == db.(imm := None, version := db'.version, nextFile := db.nextFile + 1)
      && if db.imm.value == [] then db'.version == db.version
         else
           Sorted(db.imm.value) &&
           var f: File := RawFile(db.nextFile, size, db.imm.value);
           LevelFits(db.version, level, f) && Flushed(db.version, db'.version, level, f)
    case Move(level, f) =>
      && InputsHold(db.version, level, [f], [])
      && Compacted(db.version, db'.version, level, [f], [], [f])
      && db' == db.(version := db'.version)
    case Compact(level, in0, in1, m, s, outs) =>
      && db.floor <= s <= db.lastSeq && (forall t | t in db.snapshots :: s <= t)
      && InputsHold(db.version, level, in0, in1) && MergedInputs(in0, in1, m)
      && Contents(outs) == Kept(db.version, level, m, |m|, s)
      && OutputNumbers([], outs, db.nextFile, db'.nextFile)
      && Compacted(db.version, db'.version, level, in0, in1, outs)
      && db' == db.(version := db'.version, nextFile := db'.nextFile, floor := s)
  }

  /** The compaction drops no deletion that still hides an older value from a reader of the store. */
  ghost predicate ReadExact(db: Db, a: Action) {
    a.Compact? && a.level + 1 < NUM_LEVELS ==> !Shows(db.version, a.level, a.in1, a.snapshot, Stored(db))
  }

  // ----- the level invariant

  ghost predicate LevelsInOrder(v: Version) {
    forall l | 0 <= l < NUM_LEVELS :: InKeyOrder(v[l])
  }

  ghost predicate VersionOk(v: Version, next: nat) {
    VersionInv(v) && LevelsInOrder(v) && NumbersBelow(v, next)
  }

  /** Each layer is newer than the ones below it, and nothing is newer than the last sequence number. */
  ghost predicate LayersOk(mem: set<Entry>, imm: set<Entry>, files: set<Entry>, lastSeq: SeqNum) {
    && NewerSet(mem, imm + files) && NewerSet(imm, files)
    && forall e | e in mem + (imm + files) :: e.key.seqno <= lastSeq
  }

  ghost predicate SnapshotsOk(db: Db) {
    && db.floor <= db.lastSeq < MAX_SEQ
    && (forall s | s in db.snapshots :: db.floor <= s <= db.lastSeq)
    && forall e | e in db.history :: e.key.seqno <= db.lastSeq
  }

  /** The level invariant of the whole database. */
  ghost predicate DbInv(db: Db) {
    && Sorted(db.mem) && Sorted(ImmEntries(db))
    && VersionOk(db.version, db.nextFile)
    && LayersOk(Elems(db.mem), Elems(ImmEntries(db)), AllEntries(db.version), db.lastSeq)
    && SnapshotsOk(db)
  }

  /** Every reader at or above the floor sees the plain history of writes. */
  ghost predicate ReadInv(db: Db) {
    SameReads(db.history, Stored(db), db.floor)
  }

  lemma EmptyVersionOk(v: Version)
    requires EmptyVersion(v)
    ensures VersionOk(v, 2) && AllEntries(v) == {}
  {}

  lemma InitInv(db: Db)
    requires Init(db)
    ensures DbInv(db) && ReadInv(db)
  {
    EmptyVersionOk(db.version);
    assert Elems([]) == {} && Stored(db) == {};
  }

  // ----- what each step does to the version

  lemma FlushedOrder(v: Version, v': Version, level: nat, f: File)
    requires LevelsInOrder(v) && Flushed(v, v', level, f)
    ensures LevelsInOrder(v')
  {}

  lemma CompactedOrder(v: Version, v': Version, level: nat, in0: seq<File>, in1: seq<File>, outs: seq<File>)
    requires LevelsInOrder(v) && Compacted(v, v', level, in0, in1, outs)
    ensures LevelsInOrder(v')
  {}

  lemma FlushVersion(v: Version, v': Version, level: nat, f: File, next: nat)
    requires VersionOk(v, next) && f.number == next
    requires NewerSet(Elems(f.entries), AllEntries(v)) && LevelFits(v, level, f) && Flushed(v, v', level, f)
    ensures VersionOk(v', next + 1) && AllEntries(v') == Elems(f.entries) + AllEntries(v)
  {
    forall l, g | 0 <= l < NUM_LEVELS && g in v[l]
      ensures NewerFile(f, g)
    {
      SetNewerFile(v, l, f, g);
    }
    FlushKeepsInv(v, v', level, f, next);
    FlushedOrder(v, v', level, f);
  }

  lemma SetNewerFile(v: Version, l: nat, f: File, g: File)
    requires NewerSet(Elems(f.entries), AllEntries(v)) && l < NUM_LEVELS && g in v[l]
    ensures NewerFile(f, g)
  {
    forall d, e | d in f.entries && e in g.entries && d.key.user == e.key.user
      ensures d.key.seqno > e.key.seqno
    {
      VersionHas(v, l, g, e);
      assert d in Elems(f.entries);
    }
  }

  lemma MoveVersion(v: Version, v': Version, level: nat, f: File, next: nat)
    requires VersionOk(v, next) && InputsHold(v, level, [f], []) && Compacted(v, v', level, [f], [], [f])
    ensures VersionOk(v', next) && AllEntries(v') == AllEntries(v)
  {
    MoveKeepsInv(v, v', level, f, next);
    MovedEntries(v, v', level, f);
    CompactedOrder(v, v', level, [f], [], [f]);
  }

  lemma CompactVersion(v: Version, v': Version, level: nat, in0: seq<File>, in1: seq<File>, m: seq<Entry>, s: SeqNum,
                       outs: seq<File>, next: nat, next': nat)
    requires VersionOk(v, next) && InputsHold(v, level, in0, in1) && MergedInputs(in0, in1, m)
    requires Contents(outs) == Kept(v, level, m, |m|, s) && OutputNumbers([], outs, next, next')
    requires Compacted(v, v', level, in0, in1, outs)
    ensures VersionOk(v', next') && AllEntries(v') == AfterCompaction(v, level, m, s) && AllEntries(v') <= AllEntries(v)
  {
    KeptFromInputs(v, level, in0, in1, outs, m, s);
    CompactionKeepsInv(v, v', level, in0, in1, outs, next, next');
    CompactedEntries(v, v', level, in0, in1, outs, m, s);
    CompactedOrder(v, v', level, in0, in1, outs);
    InputsStored(v, level, in0, in1, m);
    AfterIsSmaller(v, level, m, s);
  }

  // ----- what each step does to the database

  lemma LayersAfterWrite(mem: set<Entry>, imm: set<Entry>, files: set<Entry>, lastSeq: SeqNum, e: Entry)
    requires LayersOk(mem, imm, files, lastSeq) && e.key.seqno == lastSeq + 1
    ensures LayersOk(mem + {e}, imm, files, lastSeq + 1)
  {
    forall d, x | d in mem + {e} && x in imm + files && d.key.user == x.key.user
      ensures d.key.seqno > x.key.seqno
    {
      assert x in mem + (imm + files);
    }
  }

  lemma LayersShrink(mem: set<Entry>, imm: set<Entry>, files: set<Entry>, files': set<Entry>, lastSeq: SeqNum)
    requires LayersOk(mem, imm, files, lastSeq) && files' <= files
    ensures LayersOk(mem, imm, files', lastSeq)
  {}

  lemma LayersDescend(mem: set<Entry>, imm: set<Entry>, files: set<Entry>, lastSeq: SeqNum)
    requires LayersOk(mem, imm, files, lastSeq)
    ensures LayersOk(mem, {}, imm + files, lastSeq)
    ensures imm == {} ==> LayersOk({}, mem, files, lastSeq)
  {
    assert {} + (imm + files) == imm + files;
  }

  lemma WriteKeeps(db: Db, a: Action, db': Db)
    requires DbInv(db) && Next(db, a, db') && (a.Write? || a.TakeSnapshot? || a.ReleaseSnapshot? || a.Rotate?)
    ensures DbInv(db')
  {
    var mem, imm, files := Elems(db.mem), Elems(ImmEntries(db)), AllEntries(db.version);
    if a.Write? {
      LayersAfterWrite(mem, imm, files, db.lastSeq, Entry(IKey(a.user, db.lastSeq + 1, a.kind), a.value));
    } else if a.Rotate? {
      LayersDescend(mem, imm, files, db.lastSeq);
      assert imm == {} && Elems([]) == {};
    }
  }

  lemma FlushKeeps(db: Db, level: nat, size: nat, db': Db)
    requires DbInv(db) && Next(db, Flush(level, size), db')
    ensures DbInv(db') && AllEntries(db'.version) == Elems(ImmEntries(db)) + AllEntries(db.version)
  {
    LayersDescend(Elems(db.mem), Elems(ImmEntries(db)), AllEntries(db.version), db.lastSeq);
    assert Elems([]) == {};
    if db.imm.value != [] {
      FlushVersion(db.version, db'.version, level, RawFile(db.nextFile, size, db.imm.value), db.nextFile);
    }
  }

  lemma MoveKeeps(db: Db, level: nat, f: File, db': Db)
    requires DbInv(db) && Next(db, Move(level, f), db')
    ensures DbInv(db') && AllEntries(db'.version) == AllEntries(db.version)
  {
    MoveVersion(db.version, db'.version, level, f, db.nextFile);
  }

  lemma CompactKeeps(db: Db, level: nat, in0: seq<File>, in1: seq<File>, m: seq<Entry>, s: SeqNum, outs: seq<File>,
                     db': Db)
    requires DbInv(db) && Next(db, Compact(level, in0, in1, m, s, outs), db')
    ensures DbInv(db') && AllEntries(db'.version) == AfterCompaction(db.version, level, m, s)
    ensures db.floor <= s <= db.lastSeq
  {
    CompactVersion(db.version, db'.version, level, in0, in1, m, s, outs, db.nextFile, db'.nextFile);
    LayersShrink(Elems(db.mem), Elems(ImmEntries(db)), AllEntries(db.version), AllEntries(db'.version), db.lastSeq);
  }

  /** Every step keeps the level invariant. */
  lemma NextKeepsDbInv(db: Db, a: Action, db': Db)
    requires DbInv(db) && Next(db, a, db')
    ensures DbInv(db')
  {
    match a
    case Flush(level, size) => FlushKeeps(db, level, size, db');
    case Move(level, f) => MoveKeeps(db, level, f, db');
    case Compact(level, in0, in1, m, s, outs) => CompactKeeps(db, level, in0, in1, m, s, outs, db');
    case _ => WriteKeeps(db, a, db');
  }

  // ----- reads

  /** Adding an entry newer than all others to two sets that read alike. */
  lemma AddNewest(s: set<Entry>, t: set<Entry>, e: Entry, floor: SeqNum)
    requires SameReads(s, t, floor)
    requires forall d | d in s + t :: d.key.seqno < e.key.seqno
    ensures SameReads(s + {e}, t + {e}, floor)
  {
    forall u: UserKey, snapshot: SeqNum, r: Option<Str> | floor <= snapshot
      ensures Reads(s + {e}, u, snapshot, r) <==> Reads(t + {e}, u, snapshot, r)
    {
      ReadWithNewest(s, e, u, snapshot, r);
      ReadWithNewest(t, e, u, snapshot, r);
    }
  }

  lemma ReadWithNewest(s: set<Entry>, e: Entry, u: UserKey, snapshot: SeqNum, r: Option<Str>)
    requires forall d | d in s :: d.key.seqno < e.key.seqno
    ensures u == e.key.user && e.key.seqno <= snapshot ==>
              (Reads(s + {e}, u, snapshot, r) <==> r == if e.key.kind.Value? then Some(e.value) else None)
    ensures !(u == e.key.user && e.key.seqno <= snapshot) ==>
              (Reads(s + {e}, u, snapshot, r) <==> Reads(s, u, snapshot, r))
  {
    if u == e.key.user && e.key.seqno <= snapshot {
      assert forall x :: IsNewest(s + {e}, u, snapshot, x) <==> x == e;
    } else {
      assert forall x :: IsNewest(s + {e}, u, snapshot, x) <==> IsNewest(s, u, snapshot, x);
    }
  }

  lemma StoredTop(db: Db)
    ensures Stored(db) == (Elems(db.mem) + Elems(ImmEntries(db))) + AllEntries(db.version)
    ensures DbInv(db) ==> NewerSet(Elems(db.mem) + Elems(ImmEntries(db)), AllEntries(db.version))
  {}

  /** A compaction keeps reads equal to the history just when it shows no deleted key. */
  lemma CompactReadsIff(db: Db, level: nat, in0: seq<File>, in1: seq<File>, m: seq<Entry>, s: SeqNum, outs: seq<File>,
                        db': Db)
    requires DbInv(db) && ReadInv(db) && Next(db, Compact(level, in0, in1, m, s, outs), db')
    ensures ReadInv(db') <==> !Shows(db.version, level, in1, s, Stored(db))
  {
    CompactKeeps(db, level, in0, in1, m, s, outs, db');
    StoredTop(db);
    StoredTop(db');
    StoreReadsIff(db.history, Stored(db), Stored(db'), db.floor, s, Elems(db.mem) + Elems(ImmEntries(db)),
                  db.version, level, in0, in1, m);
  }

  /** Every step that does not compact keeps reads equal to the history. */
  lemma NextKeepsReadInv(db: Db, a: Action, db': Db)
    requires DbInv(db) && ReadInv(db) && Next(db, a, db') && !a.Compact?
    ensures ReadInv(db')
  {
    match a
    case Write(u, kind, value) =>
      var e := Entry(IKey(u, db.lastSeq + 1, kind), value);
      AddNewest(db.history, Stored(db), e, db.floor);
      assert Stored(db') == Stored(db) + {e};
    case TakeSnapshot =>
    case ReleaseSnapshot(s) =>
    case Rotate =>
      assert Elems([]) == {};
      assert Stored(db') == Stored(db);
    case Flush(level, size) =>
      FlushKeeps(db, level, size, db');
      assert Elems([]) == {};
      assert Stored(db') == Stored(db);
    case Move(level, f) =>
      MoveKeeps(db, level, f, db');
  }

  /** From right reads, a step leads to right reads if and only if it shows no deleted key. */
  lemma NextReadsIff(db: Db, a: Action, db': Db)
    requires DbInv(db) && ReadInv(db) && Next(db, a, db')
    ensures ReadInv(db') <==> ReadExact(db, a)
  {
    if a.Compact? {
      CompactReadsIff(db, a.level, a.in0, a.in1, a.merged, a.snapshot, a.outs, db');
    } else {
      NextKeepsReadInv(db, a, db');
    }
  }

  // ----- runs

  /** A run of the database: one action between each state and the next. */
  ghost predicate IsRun(states: seq<Db>, actions: seq<Action>) {
    && |states| == |actions| + 1 && Init(states[0])
    && forall i {:trigger StepAt(states, actions, i)} | 0 <= i < |actions| :: StepAt(states, actions, i)
  }

  ghost predicate StepAt(states: seq<Db>, actions: seq<Action>, i: nat) {
    i < |actions| && i + 1 < |states| && Next(states[i], actions[i], states[i + 1])
  }

  lemma RunPrefix(states: seq<Db>, actions: seq<Action>, n: nat)
    requires IsRun(states, actions) && n < |actions|
    ensures IsRun(states[..n + 1], actions[..n]) && Next(states[n], actions[n], states[n + 1])
  {
    var before, so := states[..n + 1], actions[..n];
    forall i | 0 <= i < n
      ensures StepAt(before, so, i)
    {
      assert StepAt(states, actions, i);
    }
    assert StepAt(states, actions, n);
  }

  /**
   In every run from the empty database each level >= 1 stays sorted and disjoint, level-0 files
   stay ordered by number, and shallower levels stay newer than deeper ones.
   */
  lemma {:induction false} RunsKeepLevels(states: seq<Db>, actions: seq<Action>)
    requires IsRun(states, actions)
    ensures DbInv(states[|actions|])
  {
    if actions == [] {
      InitInv(states[0]);
    } else {
      var n := |actions| - 1;
      RunPrefix(states, actions, n);
      RunsKeepLevels(states[..n + 1], actions[..n]);
      NextKeepsDbInv(states[n], actions[n], states[n + 1]);
    }
  }

  ghost predicate ReadAt(states: seq<Db>, i: nat) {
    i < |states| && ReadInv(states[i])
  }

  ghost predicate ExactAt(states: seq<Db>, actions: seq<Action>, i: nat) {
    i < |states| && i < |actions| && ReadExact(states[i], actions[i])
  }

  ghost function ReadAts(states: seq<Db>): nat -> bool { (i: nat) => ReadAt(states, i) }

  ghost function ExactAts(states: seq<Db>, actions: seq<Action>): nat -> bool {
    (i: nat) => ExactAt(states, actions, i)
  }

  lemma ReadNext(states: seq<Db>, actions: seq<Action>, i: nat)
    requires IsRun(states, actions) && i < |actions|
    ensures ReadAt(states, i) ==> (ReadAt(states, i + 1) <==> ExactAt(states, actions, i))
  {
    if ReadAt(states, i) {
      RunPrefix(states, actions, i);
      RunsKeepLevels(states[..i + 1], actions[..i]);
      NextReadsIff(states[i], actions[i], states[i + 1]);
    }
  }

  lemma ReadInit(states: seq<Db>, actions: seq<Action>)
    requires IsRun(states, actions)
    ensures ReadAt(states, 0)
  {
    InitInv(states[0]);
  }

  /**
   In every run, reading the layered store at any snapshot from the floor up gives what the plain
   history of writes gives, for as long as and no longer than no compaction shows a deleted key.
   */
  lemma RunsReadIff(states: seq<Db>, actions: seq<Action>, n: nat)
    requires IsRun(states, actions) && n < |states|
    ensures UpTo(ReadAts(states), n) <==> FirstAll(ExactAts(states, actions), n)
  {
    var right, exact := ReadAts(states), ExactAts(states, actions);
    ReadInit(states, actions);
    forall i: nat | i < n
      ensures right(i) ==> (right(i + 1) <==> exact(i))
    {
      ReadNext(states, actions, i);
    }
    IffChain(right, exact, n);
  }

  /** The compaction drops no deletion that still hides an older value in the files. */
  ghost predicate Safe(db: Db, a: Action) {
    a.Compact? && a.level + 1 < NUM_LEVELS ==> !Resurrects(db.version, a.level, a.in1, a.snapshot)
  }

  lemma SafeIsExact(db: Db, a: Action)
    requires Safe(db, a)
    ensures ReadExact(db, a)
  {
    if a.Compact? && a.level + 1 < NUM_LEVELS {
      ShownIsResurrected(db.version, a.level, a.in1, a.snapshot, Stored(db));
    }
  }

  /** So in particular in every run whose compactions resurrect no key. */
  lemma RunsReadHistory(states: seq<Db>, actions: seq<Action>)
    requires IsRun(states, actions)
    requires forall i | 0 <= i < |actions| :: Safe(states[i], actions[i])
    ensures ReadInv(states[|actions|])
  {
    var n := |actions|;
    forall i: nat | i < n
      ensures ExactAts(states, actions)(i)
    {
      SafeIsExact(states[i], actions[i]);
    }
    RunsReadIff(states, actions, n);
    assert ReadAts(states)(n);
  }

  /**
   DBImpl::Get in a reachable state: for a live snapshot or the latest state, the layered lookup
   answers the plain read of the history.
   */
  method Lookup(db: Db, u: UserKey, snapshot: SeqNum) returns (r: Option<Str>)
    requires DbInv(db) && (snapshot in db.snapshots || snapshot == db.lastSeq)
    ensures Reads(Stored(db), u, snapshot, r)
    ensures ReadInv(db) ==> Reads(db.history, u, snapshot, r)
  {
    r := Get(db.mem, ImmEntries(db), db.version, u, snapshot);
  }
}
