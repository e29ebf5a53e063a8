/**
 A run of the database in which a deleted key comes back.

 Key 1.0 is in level 2. Key 2.0 is written, a snapshot keeps that value alive, and the key is deleted.
 A compaction of level 1 cuts its outputs between the deletion and the value. Once the snapshot is
 released, compacting a new write of key 1.0 picks up the file that ends with the deletion but not
 the next one.
 */
module Resurrection {
  import opened Bytes
  import opened InternalKeys
  import opened Versions
  import opened InputSelection
  import opened CompactionLoop
  import opened CompactionReads
  import opened VersionSteps
  import opened DbRuns
  import opened SmallRuns

  const A1 := Entry(IKey(1.0, 1, Value), [])
  const B2 := Entry(IKey(2.0, 2, Value), [7])
  const A3 := Entry(IKey(1.0, 3, Value), [])
  const B4 := Entry(IKey(2.0, 4, Deletion), [])
  const A5 := Entry(IKey(1.0, 5, Value), [])

  const F2: File := RawFile(2, 0, [A1])
  const F3: File := RawFile(3, 0, [A3, B4, B2])
  const F4: File := RawFile(4, 0, [A3, A1, B4])
  const F5: File := RawFile(5, 0, [B2])
  const F6: File := RawFile(6, 0, [A5])
  const F7: File := RawFile(7, 0, [A5])

  ghost function S0(): Db { Db([], None, Levels([], []), 0, 2, {}, 0, {}) }
  ghost function S1(): Db { S0().(mem := [A1], lastSeq := 1, history := {A1}) }
  ghost function S2(): Db { S1().(mem := [], imm := Some([A1])) }
  ghost function S3(): Db { S2().(imm := None, version := Levels([], [F2]), nextFile := 3) }
  ghost function S4(): Db { S3().(mem := [B2], lastSeq := 2, history := {A1, B2}) }
  ghost function S5(): Db { S4().(snapshots := {2}) }
  ghost function S6(): Db { S5().(mem := [A3, B2], lastSeq := 3, history := {A1, B2, A3}) }
  ghost function S7(): Db { S6().(mem := [A3, B4, B2], lastSeq := 4, history := {A1, B2, A3, B4}) }
  ghost function S8(): Db { S7().(mem := [], imm := Some([A3, B4, B2])) }
  ghost function S9(): Db { S8().(imm := None, version := Levels([F3], [F2]), nextFile := 4) }
  ghost function S10(): Db { S9().(version := Levels([], [F4, F5]), nextFile := 6, floor := 2) }
  ghost function S11(): Db { S10().(snapshots := {}) }
  ghost function S12(): Db { S11().(mem := [A5], lastSeq := 5, history := {A1, B2, A3, B4, A5}) }
  ghost function S13(): Db { S12().(mem := [], imm := Some([A5])) }
  ghost function S14(): Db { S13().(imm := None, version := Levels([F6], [F4, F5]), nextFile := 7) }
  ghost function S15(): Db { S14().(version := Levels([], [F7, F5]), nextFile := 8, floor := 5) }

  const FirstMerged := [A3, A1, B4, B2]
  const LastMerged := [A5, A3, A1, B4]
  const FirstCompaction := Compact(1, [F3], [F2], FirstMerged, 2, [F4, F5])
  const LastCompaction := Compact(1, [F6], [F4], LastMerged, 5, [F7])

  // ----- writes and flushes

  lemma FirstWrites()
    ensures Init(S0()) && Next(S0(), Write(1.0, Value, []), S1()) && Next(S1(), Rotate, S2())
    ensures Next(S3(), Write(2.0, Value, [7]), S4()) && Next(S4(), TakeSnapshot, S5())
  {
    ElemsTwo(A1, A1);
    ElemsTwo(B2, B2);
  }

  lemma LaterWrites()
    ensures Next(S5(), Write(1.0, Value, []), S6()) && Next(S6(), Write(2.0, Deletion, []), S7())
    ensures Next(S7(), Rotate, S8())
    ensures Next(S10(), ReleaseSnapshot(2), S11()) && Next(S11(), Write(1.0, Value, []), S12())
    ensures Next(S12(), Rotate, S13())
  {
    ElemsTwo(B2, B2);
    ElemsTwo(A3, B2);
    ElemsTwo(A5, A5);
    ElemsThree(A3, B4, B2);
  }

  lemma FirstGoes(maxFileSize: nat)
    ensures Goes(Levels([], []), Levels([], [F2]), 2, F2, maxFileSize)
  {
    NoneLarge([], [], 1.0, 1.0);
    assert LevelEdited([], {}, [F2], [F2]);
  }

  lemma SecondGoes(maxFileSize: nat)
    ensures Goes(Levels([], [F2]), Levels([F3], [F2]), 1, F3, maxFileSize)
  {
    NoneLarge([], [F2], 1.0, 2.0);
    assert LevelEdited([], {}, [F3], [F3]);
    assert F2 in [F2] && Overlaps(F2, Some(1.0), Some(2.0));
  }

  lemma ThirdGoes(maxFileSize: nat)
    ensures Goes(Levels([], [F4, F5]), Levels([F6], [F4, F5]), 1, F6, maxFileSize)
  {
    NoneLarge([], [F4, F5], 1.0, 1.0);
    assert LevelEdited([], {}, [F6], [F6]);
    assert F4 in [F4, F5] && Overlaps(F4, Some(1.0), Some(1.0));
  }

  // ----- the first compaction

  lemma FirstInputs()
    ensures InputsOk(Levels([F3], [F2]), 1, [F3], [F2])
  {
    assert [F2][..0] == [];
    assert Overlapping([F2], Some(1.0), Some(2.0)) == [F2];
    assert MinUser([F3]) == 1.0 && MaxUser([F3]) == 2.0;
  }

  lemma FirstStream()
    ensures MergedInputs([F3], [F2], FirstMerged)
  {
    OneFile(F3);
    OneFile(F2);
    ElemsTwo(A1, A1);
    ElemsThree(A3, B4, B2);
    assert Elems(FirstMerged) == {A3, A1, B4, B2};
  }

  lemma FirstKept(v: Version)
    ensures Kept(v, 1, FirstMerged, 4, 2) == FirstMerged
  {
    var m := FirstMerged;
    assert Kept(v, 1, m, 1, 2) == [A3];
    assert Kept(v, 1, m, 2, 2) == [A3, A1];
    assert Kept(v, 1, m, 3, 2) == [A3, A1, B4];
  }

  lemma FirstEdit()
    ensures Compacted(Levels([F3], [F2]), Levels([], [F4, F5]), 1, [F3], [F2], [F4, F5])
  {
    assert Numbers([F3]) == {3} by { assert F3 in [F3]; }
    assert Numbers([F2]) == {2} by { assert F2 in [F2]; }
    assert LevelEdited([F3], {3}, [], []) && LevelEdited([F2], {2}, [F4, F5], [F4, F5]);
  }

  lemma FirstChosen()
    ensures CompactChosen(S9(), FirstCompaction)
  {
    FirstInputs();
  }

  lemma FirstCompacts()
    ensures Next(S9(), FirstCompaction, S10())
  {
    FirstKept(Levels([F3], [F2]));
    TwoFiles(F4, F5);
    FirstInputs();
    InputsOkHold(Levels([F3], [F2]), 1, [F3], [F2]);
    FirstStream();
    FirstEdit();
    assert Contents([F4, F5]) == FirstMerged;
  }

  // ----- the last compaction

  lemma LastInputs()
    ensures InputsOk(Levels([F6], [F4, F5]), 1, [F6], [F4])
  {
    assert [F4, F5][..1] == [F4] && [F4][..0] == [];
    assert Overlapping([F4], Some(1.0), Some(1.0)) == [F4];
    assert Overlapping([F4, F5], Some(1.0), Some(1.0)) == [F4];
    assert MinUser([F6]) == 1.0 && MaxUser([F6]) == 1.0;
  }

  lemma LastStream()
    ensures MergedInputs([F6], [F4], LastMerged)
  {
    OneFile(F6);
    OneFile(F4);
    ElemsTwo(A5, A5);
    ElemsThree(A3, A1, B4);
    LastElems();
    LastSorted();
  }

  lemma LastElems()
    ensures Elems(LastMerged) == {A5} + {A3, A1, B4}
  {}

  lemma LastSorted()
    ensures Sorted(LastMerged)
  {}

  lemma LastKept(v: Version)
    requires forall u :: BaseLevelFor(v, 1, u)
    ensures Kept(v, 1, LastMerged, 4, 5) == [A5]
  {
    var m := LastMerged;
    assert Kept(v, 1, m, 1, 5) == [A5];
    assert Hidden(m, 1, 5) && Hidden(m, 2, 5) && Obsolete(v, 1, m[3], 5);
    assert Kept(v, 1, m, 2, 5) == [A5];
    assert Kept(v, 1, m, 3, 5) == [A5];
  }

  lemma LastEdit()
    ensures Compacted(Levels([F6], [F4, F5]), Levels([], [F7, F5]), 1, [F6], [F4], [F7])
  {
    assert Numbers([F6]) == {6} by { assert F6 in [F6]; }
    assert Numbers([F4]) == {4} by { assert F4 in [F4]; }
    assert LevelEdited([F6], {6}, [], []) && LevelEdited([F4, F5], {4}, [F7], [F7, F5]);
  }

  lemma LastCompacts()
    ensures Next(S14(), LastCompaction, S15()) && CompactChosen(S14(), LastCompaction)
  {
    AllBase([F6], [F4, F5]);
    LastKept(Levels([F6], [F4, F5]));
    OneFile(F7);
    LastInputs();
    InputsOkHold(Levels([F6], [F4, F5]), 1, [F6], [F4]);
    LastStream();
    LastEdit();
  }

  // ----- the run

  ghost predicate CodedAt(states: seq<Db>, actions: seq<Action>, maxFileSize: nat, i: nat) {
    i < |actions| && i < |states| && AsCoded(states[i], actions[i], maxFileSize)
  }

  ghost predicate CodedRun(states: seq<Db>, actions: seq<Action>, maxFileSize: nat) {
    IsRun(states, actions) && forall i {:trigger CodedAt(states, actions, maxFileSize, i)} | 0 <= i < |actions| ::
      CodedAt(states, actions, maxFileSize, i)
  }

  lemma Extend(states: seq<Db>, actions: seq<Action>, a: Action, s: Db, maxFileSize: nat)
    returns (states': seq<Db>, actions': seq<Action>)
    requires CodedRun(states, actions, maxFileSize) && Next(states[|actions|], a, s)
    requires AsCoded(states[|actions|], a, maxFileSize)
    ensures CodedRun(states', actions', maxFileSize) && states'[|actions'|] == s
  {
    states', actions' := states + [s], actions + [a];
    forall i | 0 <= i < |actions'|
      ensures StepAt(states', actions', i) && CodedAt(states', actions', maxFileSize, i)
    {
      assert i < |actions| ==> StepAt(states, actions, i) && CodedAt(states, actions, maxFileSize, i);
    }
  }

  lemma UpToSnapshot(maxFileSize: nat) returns (states: seq<Db>, actions: seq<Action>)
    ensures CodedRun(states, actions, maxFileSize) && states[|actions|] == S5()
  {
    FirstWrites();
    FirstGoes(maxFileSize);
    states, actions := [S0()], [];
    states, actions := Extend(states, actions, Write(1.0, Value, []), S1(), maxFileSize);
    states, actions := Extend(states, actions, Rotate, S2(), maxFileSize);
    states, actions := Extend(states, actions, Flush(2, 0), S3(), maxFileSize);
    states, actions := Extend(states, actions, Write(2.0, Value, [7]), S4(), maxFileSize);
    states, actions := Extend(states, actions, TakeSnapshot, S5(), maxFileSize);
  }

  lemma UpToCompaction(maxFileSize: nat) returns (states: seq<Db>, actions: seq<Action>)
    ensures CodedRun(states, actions, maxFileSize) && states[|actions|] == S10()
  {
    LaterWrites();
    SecondGoes(maxFileSize);
    FirstCompacts();
    FirstChosen();
    states, actions := UpToSnapshot(maxFileSize);
    states, actions := Extend(states, actions, Write(1.0, Value, []), S6(), maxFileSize);
    states, actions := Extend(states, actions, Write(2.0, Deletion, []), S7(), maxFileSize);
    states, actions := Extend(states, actions, Rotate, S8(), maxFileSize);
    states, actions := Extend(states, actions, Flush(1, 0), S9(), maxFileSize);
    states, actions := Extend(states, actions, FirstCompaction, S10(), maxFileSize);
  }

  /**
   Reading key 2.0 at the end of the run: deleted according to the writes, found in the store. Each
   flush goes to the level the code picks, each compaction has inputs and snapshot as the code has.
   */
  lemma DeletedKeyComesBack(maxFileSize: nat) returns (states: seq<Db>, actions: seq<Action>)
    ensures CodedRun(states, actions, maxFileSize)
    ensures Reads(states[|actions|].history, 2.0, 5, None)
    ensures Reads(Stored(states[|actions|]), 2.0, 5, Some([7]))
  {
    LaterWrites();
    ThirdGoes(maxFileSize);
    LastCompacts();
    states, actions := UpToCompaction(maxFileSize);
    states, actions := Extend(states, actions, ReleaseSnapshot(2), S11(), maxFileSize);
    states, actions := Extend(states, actions, Write(1.0, Value, []), S12(), maxFileSize);
    states, actions := Extend(states, actions, Rotate, S13(), maxFileSize);
    states, actions := Extend(states, actions, Flush(1, 0), S14(), maxFileSize);
    states, actions := Extend(states, actions, LastCompaction, S15(), maxFileSize);
    FinalReads();
  }

  lemma StoredAtEnd()
    ensures Stored(S15()) == {A5, B2}
  {
    var v := Levels([], [F7, F5]);
    TwoFiles(F7, F5);
    OneFile(F5);
    ElemsTwo(A5, A5);
    ElemsTwo(B2, B2);
    forall e
      ensures e in AllEntries(v) <==> e in {A5, B2}
    {
      if e in {A5, B2} { assert e in FileEntries(v[2]); }
    }
  }

  lemma FinalReads()
    ensures Reads(S15().history, 2.0, 5, None) && Reads(Stored(S15()), 2.0, 5, Some([7]))
  {
    StoredAtEnd();
    assert forall e :: IsNewest({A1, B2, A3, B4, A5}, 2.0, 5, e) <==> e == B4;
    assert IsNewest({A5, B2}, 2.0, 5, B2);
  }
}
