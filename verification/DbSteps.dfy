/** The background steps as the code performs them, each shown to be a step of the state machine. */
module DbSteps {
  import opened Bytes
  import opened InternalKeys
  import opened Versions
  import opened VersionBuilder
  import opened InputSelection
  import opened CompactionLoop
  import opened CompactionReads
  import opened VersionSteps
  import opened LayeredGet
  import opened DbRuns
  import opened InputStream

  lemma NoClash(v: Version, l: nat, next: nat, added: seq<File>)
    requires l < NUM_LEVELS && NumbersBelow(v, next) && forall f | f in added :: f.number >= next
    ensures forall f, g | f in v[l] && g in added :: f.number != g.number
  {}

  /** DBImpl::CompactMemTable: write the immutable memtable as a table and install it. */
  method CompactMemTable(db: Db, size: nat, maxFileSize: nat) returns (db': Db, level: nat)
    requires DbInv(db) && db.imm.Some?
    ensures Next(db, Flush(level, size), db')
  {
    level := 0;
    var v := db.version;
    if db.imm.value != [] {
      var f: File := RawFile(db.nextFile, size, db.imm.value);
      level := PickLevelForMemTableOutput(v, Smallest(f).user, Largest(f).user, maxFileSize);
      NoClash(v, level, db.nextFile, [f]);
      var files := SaveLevel(v[level], {}, [f]);
      v := v[level := files];
    }
    db' := db.(imm := None, version := v, nextFile := db.nextFile + 1);
  }

  /** Compaction::IsTrivialMove */
  predicate IsTrivialMove(in0: seq<File>, in1: seq<File>, grandparents: seq<File>, maxFileSize: nat) {
    |in0| == 1 && |in1| == 0 && TotalFileSize(grandparents) <= 10 * maxFileSize
  }

  /** The trivial-move branch of DBImpl::BackgroundCompaction. */
  method TrivialMove(db: Db, level: nat, in0: seq<File>, in1: seq<File>, grandparents: seq<File>, maxFileSize: nat)
    returns (db': Db)
    requires DbInv(db) && InputsOk(db.version, level, in0, in1)
    requires IsTrivialMove(in0, in1, grandparents, maxFileSize)
    ensures Next(db, Move(level, in0[0]), db')
  {
    var f, v := in0[0], db.version;
    InputsOkHold(v, level, in0, in1);
    assert in0 == [f] && in1 == [];
    MovedNumber(v, level, f);
    var from := SaveLevel(v[level], {f.number}, []);
    var to := SaveLevel(v[level + 1], {}, [f]);
    assert Numbers([f]) == {f.number} by { assert f in [f]; }
    assert Numbers([]) == {};
    db' := db.(version := v[level := from][level + 1 := to]);
  }

  lemma MovedNumber(v: Version, level: nat, f: File)
    requires NumbersDistinct(v) && level + 1 < NUM_LEVELS && f in v[level]
    ensures forall g | g in v[level + 1] :: g.number != f.number
  {}

  /** TableBuilder output for each finished entry list, with consecutive new file numbers. */
  method NameOutputs(outputs: seq<seq<Entry>>, sizes: seq<nat>, next: nat) returns (outs: seq<File>)
    requires Sorted(Flatten(outputs)) && |sizes| == |outputs| && forall o | o in outputs :: o != []
    ensures Contents(outs) == Flatten(outputs)
    ensures OutputNumbers([], outs, next, next + |outputs|)
    ensures SortedDisjoint(outs)
  {
    outs := [];
    for i := 0 to |outputs|
      invariant |outs| == i && Contents(outs) == Flatten(outputs[..i])
      invariant forall k | 0 <= k < i :: outs[k].number == next + k
    {
      FlattenNext(outputs, i);
      PieceSorted(outputs, i);
      assert outputs[i] in outputs;
      var f: File := RawFile(next + i, sizes[i], outputs[i]);
      ContentsLast(outs + [f]);
      assert (outs + [f])[..i] == outs;
      outs := outs + [f];
    }
    assert outputs[..|outputs|] == outputs;
    CutIsSorted(outs);
  }

  lemma FlattenNext(outputs: seq<seq<Entry>>, i: nat)
    requires i < |outputs|
    ensures Flatten(outputs[..i + 1]) == Flatten(outputs[..i]) + outputs[i]
  {
    assert outputs[..i + 1][..i] == outputs[..i];
  }

  lemma {:induction false} PieceSorted(outputs: seq<seq<Entry>>, i: nat)
    requires i < |outputs| && Sorted(Flatten(outputs))
    ensures Sorted(outputs[i])
  {
    var n := |outputs| - 1;
    var c := Flatten(outputs[..n]);
    SortedPrefix(c, outputs[n]);
    if i < n {
      PieceSorted(outputs[..n], i);
    } else {
      forall a, b | 0 <= a < b < |outputs[n]|
        ensures Before(outputs[n][a].key, outputs[n][b].key)
      {
        assert (c + outputs[n])[|c| + a] == outputs[n][a] && (c + outputs[n])[|c| + b] == outputs[n][b];
      }
    }
  }

  /**
   DBImpl::DoCompactionWork and InstallCompactionResults for chosen inputs: the inputs are merged,
   and however the outputs are cut, the result is a compaction step.
   */
  method CompactFiles(db: Db, level: nat, in0: seq<File>, in1: seq<File>, snapshot: SeqNum,
                      stop: nat -> bool, full: nat -> bool, size: nat -> nat) returns (db': Db, m: seq<Entry>,
                          outs: seq<File>)
    requires DbInv(db) && InputsOk(db.version, level, in0, in1) && Listed(level, in0)
    requires IsSmallestSnapshot(db, snapshot)
    ensures Next(db, Compact(level, in0, in1, m, snapshot, outs), db')
  {
    InputsOkHold(db.version, level, in0, in1);
    assert SortedDisjoint(db.version[level + 1]);
    OverlappingSorted(db.version[level + 1], Some(MinUser(in0)), Some(MaxUser(in0)));
    m := MergeInputs(db.version, level, in0, in1);
    db', outs := CompactMerged(db, level, in0, in1, m, snapshot, seq(|m|, i requires i >= 0 => stop(i)),
                               seq(|m|, i requires i >= 0 => full(i)), seq(|m|, i requires i >= 0 => size(i)));
  }

  /** The same once the inputs are merged. */
  method CompactMerged(db: Db, level: nat, in0: seq<File>, in1: seq<File>, m: seq<Entry>, snapshot: SeqNum,
                       stop: seq<bool>, full: seq<bool>, sizes: seq<nat>) returns (db': Db, outs: seq<File>)
    requires DbInv(db) && InputsHold(db.version, level, in0, in1) && MergedInputs(in0, in1, m)
    requires IsSmallestSnapshot(db, snapshot) && |stop| == |full| == |sizes| == |m|
    ensures Next(db, Compact(level, in0, in1, m, snapshot, outs), db')
  {
    var v := db.version;
    SmallestSnapshot(db, snapshot);
    var c := new Compaction(v, level);
    var outputs := DoCompactionWork(c, m, snapshot, stop, full);
    KeptSorted(v, level, m, |m|, snapshot);
    FewOutputs(v, level, m, snapshot, outputs);
    outs := NameOutputs(outputs, sizes[..|outputs|], db.nextFile);
    var v' := InstallCompactionResults(v, level, in0, in1, outs, db.nextFile);
    db' := db.(version := v', nextFile := db.nextFile + |outputs|, floor := snapshot);
  }

  /** DBImpl::InstallCompactionResults: the edit that swaps the inputs for the outputs. */
  method InstallCompactionResults(v: Version, level: nat, in0: seq<File>, in1: seq<File>, outs: seq<File>, next: nat)
    returns (v': Version)
    requires level + 1 < NUM_LEVELS && VersionOk(v, next) && SortedDisjoint(outs)
    requires forall f | f in outs :: f.number >= next
    ensures Compacted(v, v', level, in0, in1, outs)
  {
    NoClash(v, level + 1, next, outs);
    SortedInOrder(outs);
    var deleted0 := set f: File | f in in0 :: f.number;
    var deleted1 := set f: File | f in in1 :: f.number;
    var from := SaveLevel(v[level], deleted0, []);
    var to := SaveLevel(v[level + 1], deleted1, outs);
    v' := v[level := from][level + 1 := to];
  }

  lemma SortedInOrder(fs: seq<File>)
    requires SortedDisjoint(fs)
    ensures InKeyOrder(fs)
  {
    forall i, j | 0 <= i < j < |fs|
      ensures BySmallestKey(fs[i], fs[j])
    {
      assert FileBefore(fs[i], fs[j]);
      EntryBounds(fs[i], fs[i].entries[0]);
    }
  }

  lemma {:induction false} FlattenLength(outputs: seq<seq<Entry>>)
    requires forall o | o in outputs :: o != []
    ensures |outputs| <= |Flatten(outputs)|
  {
    if outputs != [] {
      var n := |outputs| - 1;
      assert outputs[n] in outputs;
      forall o | o in outputs[..n]
        ensures o != []
      {
        assert o in outputs;
      }
      FlattenLength(outputs[..n]);
    }
  }

  lemma {:induction false} KeptLength(v: Version, level: nat, m: seq<Entry>, n: nat, snapshot: SeqNum)
    requires n <= |m|
    ensures |Kept(v, level, m, n, snapshot)| <= n
  {
    if n > 0 {
      KeptLength(v, level, m, n - 1, snapshot);
    }
  }

  lemma FewOutputs(v: Version, level: nat, m: seq<Entry>, snapshot: SeqNum, outputs: seq<seq<Entry>>)
    requires Flatten(outputs) == Kept(v, level, m, |m|, snapshot) && forall o | o in outputs :: o != []
    ensures |outputs| <= |m|
  {
    FlattenLength(outputs);
    KeptLength(v, level, m, |m|, snapshot);
  }
}
