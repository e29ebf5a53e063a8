/**
 A run with a nested flush after which a written key is not found.

 Level 1 and level 2 both hold a file with key 1.0 and a file with key 5.0. A manual compaction
 merges all four into one output. While it runs, key 3.0 is written and flushed: nothing overlaps
 it down to level 2, so that is where it goes. Then the output, which spans 1.0 to 5.0, is installed
 at level 2 as well, and the binary search for key 3.0 ends at the output.
 */
module GapLost {
  import opened Bytes
  import opened InternalKeys
  import opened Versions
  import opened InputSelection
  import opened CompactionLoop
  import opened CompactionReads
  import opened VersionSteps
  import opened LayeredGet
  import opened DbRuns
  import opened SmallRuns
  import opened NestedRuns

  const A1 := Entry(IKey(1.0, 1, Value), [])
  const C2 := Entry(IKey(5.0, 2, Value), [])
  const A3 := Entry(IKey(1.0, 3, Value), [])
  const C4 := Entry(IKey(5.0, 4, Value), [])
  const B5 := Entry(IKey(3.0, 5, Value), [7])

  const F2: File := RawFile(2, 0, [A1])
  const F3: File := RawFile(3, 0, [C2])
  const F4: File := RawFile(4, 0, [A3])
  const F5: File := RawFile(5, 0, [C4])
  const F6: File := RawFile(6, 0, [B5])
  const F7: File := RawFile(7, 0, [A3, C4])

  /** A state between writes: everything is in files. */
  ghost function Quiet(v: Version, lastSeq: SeqNum, nextFile: nat, history: set<Entry>): Db {
    Db([], None, v, lastSeq, nextFile, {}, 0, history)
  }

  /**
   Every flush goes where the code sends it, and the compaction is a manual one of all keys of a level
   whose files stay within the size limit.
   */
  ghost predicate CodedStep(x: State, step: Step, maxFileSize: nat) {
    && (step.Do? ==> FlushPicked(x.db, step.action, maxFileSize))
    && (step.Begin? && step.level < NUM_LEVELS ==>
          var files := x.db.version[step.level];
          ManualReaches(x.db.version, step.level) && step.in0 == files &&
          (step.level > 0 ==> Limited(files, files, maxFileSize)))
  }

  ghost predicate CodedAt(states: seq<State>, steps: seq<Step>, maxFileSize: nat, i: nat) {
    i < |steps| && i < |states| && CodedStep(states[i], steps[i], maxFileSize)
  }

  ghost predicate CodedRun(states: seq<State>, steps: seq<Step>, maxFileSize: nat) {
    IsNestedRun(states, steps) && forall i {:trigger CodedAt(states, steps, maxFileSize, i)} | 0 <= i < |steps| ::
      CodedAt(states, steps, maxFileSize, i)
  }

  lemma Extend(states: seq<State>, steps: seq<Step>, step: Step, s: State, maxFileSize: nat)
    returns (states': seq<State>, steps': seq<Step>)
    requires CodedRun(states, steps, maxFileSize) && NestedNext(states[|steps|], step, s)
    requires CodedStep(states[|steps|], step, maxFileSize)
    ensures CodedRun(states', steps', maxFileSize) && states'[|steps'|] == s
  {
    states', steps' := states + [s], steps + [step];
    forall i | 0 <= i < |steps'|
      ensures NestedAt(states', steps', i) && CodedAt(states', steps', maxFileSize, i)
    {
      assert i < |steps| ==> NestedAt(states, steps, i) && CodedAt(states, steps, maxFileSize, i);
    }
  }

  /** Write an entry, rotate the memtable, flush it. */
  lemma Put(states: seq<State>, steps: seq<Step>, maxFileSize: nat, db: Db, w: Work, e: Entry, level: nat, f: File,
            v': Version)
    returns (states': seq<State>, steps': seq<Step>)
    requires CodedRun(states, steps, maxFileSize) && states[|steps|] == State(db, w)
    requires db == Quiet(db.version, db.lastSeq, db.nextFile, db.history)
    requires db.lastSeq + 1 < MAX_SEQ && e.key.seqno == db.lastSeq + 1
    requires f == RawFile(db.nextFile, 0, [e]) && Goes(db.version, v', level, f, maxFileSize)
    ensures CodedRun(states', steps', maxFileSize)
    ensures states'[|steps'|] == State(Quiet(v', db.lastSeq + 1, db.nextFile + 1, db.history + {e}), w)
  {
    var written := db.(mem := [e], lastSeq := db.lastSeq + 1, history := db.history + {e});
    var rotated := written.(mem := [], imm := Some([e]));
    var flushed := rotated.(imm := None, version := v', nextFile := db.nextFile + 1);
    ElemsTwo(e, e);
    assert Next(db, Write(e.key.user, e.key.kind, e.value), written);
    assert Next(written, Rotate, rotated);
    assert Next(rotated, Flush(level, 0), flushed);
    states', steps' := Extend(states, steps, Do(Write(e.key.user, e.key.kind, e.value)), State(written, w),
                              maxFileSize);
    states', steps' := Extend(states', steps', Do(Rotate), State(rotated, w), maxFileSize);
    states', steps' := Extend(states', steps', Do(Flush(level, 0)), State(flushed, w), maxFileSize);
  }

  lemma FirstFlush(maxFileSize: nat)
    ensures Goes(Levels([], []), Levels([], [F2]), 2, F2, maxFileSize)
  {
    NoneLarge([], [], 1.0, 1.0);
    assert LevelEdited([], {}, [F2], [F2]);
  }

  lemma SecondFlush(maxFileSize: nat)
    ensures Goes(Levels([], [F2]), Levels([], [F2, F3]), 2, F3, maxFileSize)
  {
    NoneLarge([], [F2], 5.0, 5.0);
    assert LevelEdited([F2], {}, [F3], [F2, F3]);
  }

  lemma ThirdFlush(maxFileSize: nat)
    ensures Goes(Levels([], [F2, F3]), Levels([F4], [F2, F3]), 1, F4, maxFileSize)
  {
    NoneLarge([], [F2, F3], 1.0, 1.0);
    assert LevelEdited([], {}, [F4], [F4]);
    assert F2 in [F2, F3] && Overlaps(F2, Some(1.0), Some(1.0));
  }

  lemma FourthFlush(maxFileSize: nat)
    ensures Goes(Levels([F4], [F2, F3]), Levels([F4, F5], [F2, F3]), 1, F5, maxFileSize)
  {
    NoneLarge([F4], [F2, F3], 5.0, 5.0);
    assert LevelEdited([F4], {}, [F5], [F4, F5]);
    assert F3 in [F2, F3] && Overlaps(F3, Some(5.0), Some(5.0));
  }

  lemma NestedFlush(maxFileSize: nat)
    ensures Goes(Levels([F4, F5], [F2, F3]), Levels([F4, F5], [F2, F6, F3]), 2, F6, maxFileSize)
  {
    NoneLarge([F4, F5], [F2, F3], 3.0, 3.0);
    assert LevelEdited([F2, F3], {}, [F6], [F2, F6, F3]);
  }

  // ----- the compaction

  const Merged := [A3, A1, C4, C2]

  lemma Hull()
    ensures MinUser([F4, F5]) == 1.0 && MaxUser([F4, F5]) == 5.0
  {
    assert [F4, F5][1..] == [F5];
  }

  lemma InputParents()
    ensures Overlapping([F2, F3], Some(1.0), Some(5.0)) == [F2, F3]
  {
    assert [F2, F3][..1] == [F2] && [F2][..0] == [];
    assert Overlapping([F2], Some(1.0), Some(5.0)) == [F2];
  }

  lemma Inputs()
    ensures InputsOk(Levels([F4, F5], [F2, F3]), 1, [F4, F5], [F2, F3])
  {
    Hull();
    InputParents();
  }

  lemma MergedStream()
    ensures MergedInputs([F4, F5], [F2, F3], Merged)
  {
    TwoFiles(F4, F5);
    TwoFiles(F2, F3);
    assert Elems(Merged) == {A3, A1, C4, C2};
    ElemsTwo(A3, C4);
    ElemsTwo(A1, C2);
    ElemsTwo(C4, C4);
    ElemsTwo(C2, C2);
  }

  lemma KeptStream(v: Version)
    requires forall u :: BaseLevelFor(v, 1, u)
    ensures Kept(v, 1, Merged, 4, 4) == [A3, C4]
  {
    var m := Merged;
    assert Kept(v, 1, m, 1, 4) == [A3];
    assert Hidden(m, 1, 4) && Hidden(m, 3, 4);
    assert Kept(v, 1, m, 2, 4) == [A3];
    assert Kept(v, 1, m, 3, 4) == [A3, C4];
  }

  lemma Edit()
    ensures Compacted(Levels([F4, F5], [F2, F6, F3]), Levels([], [F7, F6]), 1, [F4, F5], [F2, F3], [F7])
  {
    assert Numbers([F4, F5]) == {4, 5} by { assert F4 in [F4, F5] && F5 in [F4, F5]; }
    assert Numbers([F2, F3]) == {2, 3} by { assert F2 in [F2, F3] && F3 in [F2, F3]; }
    assert LevelEdited([F4, F5], {4, 5}, [], []);
    assert LevelEdited([F2, F6, F3], {2, 3}, [F7], [F7, F6]);
  }

  ghost function Before5(): Db { Quiet(Levels([F4, F5], [F2, F3]), 4, 6, {A1, C2, A3, C4}) }
  ghost function After5(): Db { Quiet(Levels([F4, F5], [F2, F6, F3]), 5, 7, {A1, C2, A3, C4, B5}) }
  ghost function Last(): Db { Quiet(Levels([], [F7, F6]), 5, 8, {A1, C2, A3, C4, B5}).(floor := 4) }
  ghost function Running(): Work { Busy(1, [F4, F5], [F2, F3], Merged, 4, Levels([F4, F5], [F2, F3])) }

  lemma Begins()
    ensures NestedNext(State(Before5(), Idle), Begin(1, [F4, F5], [F2, F3], Merged, 4), State(Before5(), Running()))
    ensures ManualReaches(Before5().version, 1)
  {
    assert F2 in Before5().version[2];
    Inputs();
    MergedStream();
  }

  lemma Finishes()
    ensures NestedNext(State(After5(), Running()), Install([F7]), State(Last(), Idle))
  {
    AllBase([F4, F5], [F2, F3]);
    KeptStream(Levels([F4, F5], [F2, F3]));
    OneFile(F7);
    Edit();
  }

  lemma WithinLimit(maxFileSize: nat)
    requires maxFileSize > 0
    ensures Limited([F4, F5], [F4, F5], maxFileSize)
  {
    assert [F4, F5][..1] == [F4] && TotalFileSize([F4]) == 0;
  }

  // ----- the run

  ghost function TwoPut(): Db { Quiet(Levels([], [F2, F3]), 2, 4, {A1, C2}) }

  lemma UpToTwo(maxFileSize: nat) returns (states: seq<State>, steps: seq<Step>)
    ensures CodedRun(states, steps, maxFileSize) && states[|steps|] == State(TwoPut(), Idle)
  {
    FirstFlush(maxFileSize);
    SecondFlush(maxFileSize);
    var db0 := Quiet(Levels([], []), 0, 2, {});
    var db1 := Quiet(Levels([], [F2]), 1, 3, {A1});
    states, steps := [State(db0, Idle)], [];
    states, steps := Put(states, steps, maxFileSize, db0, Idle, A1, 2, F2, db1.version);
    states, steps := Put(states, steps, maxFileSize, db1, Idle, C2, 2, F3, TwoPut().version);
  }

  lemma UpToBegin(maxFileSize: nat) returns (states: seq<State>, steps: seq<Step>)
    ensures CodedRun(states, steps, maxFileSize) && states[|steps|] == State(Before5(), Idle)
  {
    ThirdFlush(maxFileSize);
    FourthFlush(maxFileSize);
    var db3 := Quiet(Levels([F4], [F2, F3]), 3, 5, {A1, C2, A3});
    states, steps := UpToTwo(maxFileSize);
    states, steps := Put(states, steps, maxFileSize, TwoPut(), Idle, A3, 1, F4, db3.version);
    states, steps := Put(states, steps, maxFileSize, db3, Idle, C4, 1, F5, Before5().version);
  }

  lemma UpToBusy(maxFileSize: nat) returns (states: seq<State>, steps: seq<Step>)
    requires maxFileSize > 0
    ensures CodedRun(states, steps, maxFileSize) && states[|steps|] == State(Before5(), Running())
  {
    states, steps := UpToBegin(maxFileSize);
    Begins();
    WithinLimit(maxFileSize);
    states, steps := Extend(states, steps, Begin(1, [F4, F5], [F2, F3], Merged, 4), State(Before5(), Running()),
                            maxFileSize);
  }

  lemma UpToInstall(maxFileSize: nat) returns (states: seq<State>, steps: seq<Step>)
    requires maxFileSize > 0
    ensures CodedRun(states, steps, maxFileSize) && states[|steps|] == State(After5(), Running())
  {
    states, steps := UpToBusy(maxFileSize);
    NestedFlush(maxFileSize);
    states, steps := Put(states, steps, maxFileSize, Before5(), Running(), B5, 2, F6, After5().version);
  }

  /** Key 3.0 was written, nothing deleted it, and no lookup finds it. */
  lemma WrittenKeyIsLost(maxFileSize: nat) returns (states: seq<State>, steps: seq<Step>)
    requires maxFileSize > 0
    ensures CodedRun(states, steps, maxFileSize)
    ensures var db := states[|steps|].db;
            && Reads(db.history, 3.0, db.lastSeq, Some([7]))
            && db.mem == [] && db.imm.None? && Misses(db.version, 3.0, db.lastSeq)
  {
    states, steps := UpToInstall(maxFileSize);
    Finishes();
    states, steps := Extend(states, steps, Install([F7]), State(Last(), Idle), maxFileSize);
    NotFound();
  }

  lemma NotFound()
    ensures Reads(Last().history, 3.0, 5, Some([7])) && Misses(Last().version, 3.0, 5)
  {
    assert IsNewest({A1, C2, A3, C4, B5}, 3.0, 5, B5);
    var key := SeekKey(3.0, 5);
    assert !Less(Largest(F6), key) && !Less(Largest(F7), key);
    assert Bisect([F7, F6], key, 0, 2) == Bisect([F7, F6], key, 0, 1) == Bisect([F7, F6], key, 0, 0) == 0;
  }
}
