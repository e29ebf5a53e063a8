/** What concrete runs need: steps as the code takes them, and the contents of a few small files. */
module SmallRuns {
  import opened Bytes
  import opened InternalKeys
  import opened Versions
  import opened InputSelection
  import opened CompactionLoop
  import opened VersionSteps
  import opened LayeredGet
  import opened DbRuns

  /** The flush goes to the level PickLevelForMemTableOutput gives the immutable memtable. */
  ghost predicate FlushPicked(db: Db, a: Action, maxFileSize: nat) {
    a.Flush? && db.imm.Some? && db.imm.value != [] ==>
      var es := db.imm.value;
      PicksLevel(db.version, es[0].key.user, es[|es| - 1].key.user, maxFileSize, a.level)
  }

  /** DBImpl::CompactRange over all keys comes to the level: there is a file at a deeper one, or it is level 0. */
  ghost predicate ManualReaches(v: Version, level: nat) {
    level == 0 || exists l, f :: level < l < NUM_LEVELS && f in v[l]
  }

  /**
   The compaction starts from inputs chosen as the code chooses them, at the snapshot it uses. A
   single file without parents is merged, not moved, only in a manual compaction.
   */
  ghost predicate CompactChosen(db: Db, a: Action) {
    a.Compact? ==>
      && InputsOk(db.version, a.level, a.in0, a.in1) && IsSmallestSnapshot(db, a.snapshot)
      && (|a.in0| == 1 && a.in1 == [] ==> ManualReaches(db.version, a.level))
  }

  ghost predicate AsCoded(db: Db, a: Action, maxFileSize: nat) {
    FlushPicked(db, a, maxFileSize) && CompactChosen(db, a)
  }

  function Levels(level1: seq<File>, level2: seq<File>): Version {
    [[], level1, level2, [], [], [], []]
  }

  lemma AllBase(level1: seq<File>, level2: seq<File>)
    ensures forall u :: BaseLevelFor(Levels(level1, level2), 1, u)
  {
    assert forall l | 3 <= l < NUM_LEVELS :: Levels(level1, level2)[l] == [];
  }

  lemma NoneLarge(level1: seq<File>, level2: seq<File>, lo: UserKey, hi: UserKey)
    requires forall f | f in level1 || f in level2 :: f.size == 0
    ensures forall l | 0 <= l < NUM_LEVELS ::
              TotalFileSize(Overlapping(Levels(level1, level2)[l], Some(lo), Some(hi))) == 0
  {
    forall l | 0 <= l < NUM_LEVELS
      ensures TotalFileSize(Overlapping(Levels(level1, level2)[l], Some(lo), Some(hi))) == 0
    {
      NothingLarge(Levels(level1, level2)[l], lo, hi);
    }
  }

  /** The file with the entries goes to the level as the code has it. */
  ghost predicate Goes(v: Version, v': Version, level: nat, f: File, maxFileSize: nat) {
    && LevelFits(v, level, f) && Flushed(v, v', level, f)
    && PicksLevel(v, Smallest(f).user, Largest(f).user, maxFileSize, level)
  }

  lemma ElemsTwo(a: Entry, b: Entry)
    ensures Elems([]) == {} && Elems([a]) == {a} && Elems([a, b]) == {a, b}
  {}

  lemma ElemsThree(a: Entry, b: Entry, c: Entry)
    ensures Elems([a, b, c]) == {a, b, c}
  {}

  lemma OneFile(f: File)
    ensures FileEntries([f]) == Elems(f.entries) && FileEntries([]) == {} && Contents([f]) == f.entries
  {
    assert f in [f];
    ContentsLast([f]);
    assert [f][..0] == [];
  }

  lemma TwoFiles(f: File, g: File)
    ensures FileEntries([f, g]) == Elems(f.entries) + Elems(g.entries) && Contents([f, g]) == f.entries + g.entries
  {
    assert f in [f, g] && g in [f, g];
    ContentsLast([f, g]);
    assert [f, g][..1] == [f];
    OneFile(f);
  }

  lemma {:induction false} ZeroTotal(fs: seq<File>)
    requires forall f | f in fs :: f.size == 0
    ensures TotalFileSize(fs) == 0
  {
    if fs != [] {
      ZeroTotal(fs[1..]);
    }
  }

  lemma NothingLarge(files: seq<File>, lo: UserKey, hi: UserKey)
    requires forall f | f in files :: f.size == 0
    ensures TotalFileSize(Overlapping(files, Some(lo), Some(hi))) == 0
  {
    OverlappingMembers(files, Some(lo), Some(hi));
    ZeroTotal(Overlapping(files, Some(lo), Some(hi)));
  }
}
